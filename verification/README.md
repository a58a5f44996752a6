# Verification of the unpacker's decoders and protocol

A Dafny model of the parts of the unpacker whose correctness is not visible from reading
one function: the HCA audio decoder, the nested semaphore and worker-pool protocol, and the
CRI containers. `dafny verify dfyconfig.toml` checks everything.

## What is modelled

**The HCA decoder.** `BitReader`, `Crc`, `Generators`, `Cipher`, `Coefficients`, `Channel`, `Resolution`, `Hfr`,
`Header` and `Frame` follow a frame from its bytes to the side information and coefficients of all channels, `Synthesis`
from there to the waves, as functions over plain values; `FrameDecoder` has the decoder's arrays and loops, each tied
to those functions, over runs of any frames. `SideWriter` and `FrameWriter` write frames, which the decoder reads back;
`Rescale` says what restored bands are. `SilentFrame` shows which headers have frames at all,
`Margins` where frames can break off. `Energy`, `Networks`, `Transform`, `Inverse` and `Imdct` treat the inverse
transform: sample values are reals and the sine, cosine and window tables are any that meet the ideal identities
(sin^2 + cos^2 is 1/128 in the first rotation pass and 1 in the others, w[i]^2 + w[127-i]^2 is 1). All integer tables
are literal. `HcaStream` covers whole files for any block decoder, `HcaFile` those of the frame decoder.

**The protocol.** `Pool` is one worker pool, `Protocol` any number of tasks with an ACB pool each and an HCA
pool inside every ACB worker, `ProtocolLaws` what holds in every reachable state, `ProtocolOutcomes` what the result
of a task says about its pools and how much goes on at a time. One step is one step of one goroutine
or the cancellation of one task; the outcome of an export is arbitrary.

**The containers.** `UsmMask` has the content masks, `Afs` the archives, `Utf` and `UtfWriter` the tables,
`Streams` the reader under both, `OffsetReader` the reader that starts inside another stream, over which
the same table parser runs. `Bytes`, `Common` and `Counting` are shared.

## Where the code does not do what one might expect

Each of these is a lemma or part of a contract, with the exact condition.

- A bit read whose window reaches past the last whole byte panics although its bits exist (`BitReader.PeekExact`,
  `BitReader.PeekPanics`); a frame with a right checksum can break off for that reason, but only near its end
  (`Margins.FrameBreaksOff`, `Margins.BreaksOffLate`), and never when frames are long enough (`Margins.SpaciousFrames`).
- The header checks accept more coded bands than bands; the group count then wraps to a huge number
  (`Header.GroupsInRange`, `Header.UnorderedBandsAccepted`), and no frame is ever accepted (`Frame.UnorderedUnusable`).
- In version 3 the high-frequency scale of a group is the one coded for the next group, and the last group takes the
  slot after the coded ones; with 128 scale factors that slot does not exist and the decoder panics
  (`Channel.CodedScalesRead`, `Channel.ScalesPanicExactly`, and for whole headers `Frame.NeverAccepted`, `Frame.OrderedUnusable`).
- The test of an unsigned band index for being negative cannot fire; a walk below band zero panics instead
  (`Hfr.ReconstructHighFrequency`, `Hfr.LowInRange`, `Frame.BadLayoutAccepted`, `SilentFrame.BadLayoutReached`); which
  headers let a frame through at all is `SilentFrame.UsableExactly`.
- A stream cut between two blocks ends without an error, and its WAV header announces more than was written
  (`HcaStream.PlaysToTheEnd`, `HcaStream.CutBetweenBlocks`, `HcaStream.CutWavIsShort`,
  `HcaFile.SilentFileCut`, `HcaFile.CutFile`).
- Up to version 2.00 a first intensity of fifteen keeps the other seven, and its four bits are read again as what
  follows (`SideWriter.FifteenReads`).
- The offset reader refuses a seek from the end, which every stream performs (`OffsetReader.LengthTells`, `OffsetReader.SameReplies`).
- Twelve bits of a USM key do not matter (`UsmMask.SameMasks`).

## Model

| member | source | states |
|---|---|---|
| Transform.RunEnergyFromReset | internal/cricodecs/hca/clhcaimdct.go:154-251 | From a reset decoder with ideal tables, the squares of all output blocks plus those of the kept half-window sum to the squares of all input spectra, for runs of any length |
| Transform.RunJoin | internal/cricodecs/hca/clhcaimdct.go:154-251 | A run goes on where another one stopped: frames can be decoded one at a time |
| Transform.RunEnergy | internal/cricodecs/hca/clhcaimdct.go:154-251 | The same balance from any start whose kept half-window is balanced, which every step keeps |
| Transform.RunLosesNothing | internal/cricodecs/hca/clhcaimdct.go:154-251 | Two runs from balanced starts with equal outputs and an equal last half-window had equal starts and equal spectra: all outputs together lose nothing |
| Transform.StepLosesNothing | internal/cricodecs/hca/clhcaimdct.go:240-250 | One block: the output and the new half-window determine the transformed block and the old half-window |
| Transform.OverlapEnergy | internal/cricodecs/hca/clhcaimdct.go:240-250 | Windowed overlap-add is an orthogonal step on the pairs (i, 127 - i) |
| Transform.SavedBalanced | internal/cricodecs/hca/clhcaimdct.go:245-250 | Every step leaves w[i] * prev[i] equal to w[127 - i] * prev[127 - i] |
| Transform.WaveGivesUpperHalf | internal/cricodecs/hca/clhcaimdct.go:244-247 | A pair of outputs gives back the upper half of the block through the window again (the pair step is its own inverse) |
| Transform.WaveGivesOldLowerHalf | internal/cricodecs/hca/clhcaimdct.go:240-250 | The same pair gives back the lower half of the previous block |
| Transform.CarryGivesLowerHalf | internal/cricodecs/hca/clhcaimdct.go:248-249 | The kept half-window gives back the lower half of the current block |
| Transform.DctEnergy | internal/cricodecs/hca/clhcaimdct.go:160-238 | The fourteen passes together keep the sum of squares |
| Transform.DctInjective | internal/cricodecs/hca/clhcaimdct.go:160-238 | Different spectra give different blocks |
| Inverse.DctUndone | internal/cricodecs/hca/clhcaimdct.go:160-238 | An explicit inverse, half sums and differences after turning every pair back by the tables in plain products, gives each spectrum back from its block, for any ideal tables |
| Inverse.RotationBlockAt | internal/cricodecs/hca/clhcaimdct.go:202-232 | Slot by slot, a rotation block is a * sin - b * cos in its lower half and a * cos + b * sin, read backwards, in its upper half |
| Transform.ButterfliesEnergy | internal/cricodecs/hca/clhcaimdct.go:160-193 | Each of the seven first passes doubles the sum of squares |
| Transform.RotationsEnergy | internal/cricodecs/hca/clhcaimdct.go:195-238 | The second passes undo the gain of 128 and otherwise keep the sum of squares |
| Networks.ButterflyPassEnergy | internal/cricodecs/hca/clhcaimdct.go:167-192 | A butterfly pass of any number and size of blocks doubles the sum of squares |
| Networks.RotationPassEnergy | internal/cricodecs/hca/clhcaimdct.go:202-237 | A rotation pass of any number and size of blocks scales the sum of squares by the common value of sin^2 + cos^2 |
| Imdct.ButterflyPassInto | internal/cricodecs/hca/clhcaimdct.go:167-186 | The running indices of one pass read every source slot once and write every target slot once, giving the pass function |
| Imdct.RotationPassInto | internal/cricodecs/hca/clhcaimdct.go:202-232 | The same for a rotation pass with its descending second target index |
| Imdct.ChannelBuffers.OverlapAdd | internal/cricodecs/hca/clhcaimdct.go:240-250 | The in-place overlap-add computes outputs and kept half-window from the old half-window only |
| Imdct.ChannelBuffers.ImdctTransform | internal/cricodecs/hca/clhcaimdct.go:154-251 | Both networks with swapped buffers and the overlap-add are one step of the run above |
| Imdct.ChannelBuffers.DecodeReset | internal/cricodecs/hca/clhca.go:928-941 | Reset silences the kept half-window |
| BitReader.PeekExact | internal/cricodecs/hca/clhca.go:156-214 | A non-empty read inside the stream gives the big-endian value of its bits exactly when it lies in one byte or enough whole bytes are left for its window (up to four); otherwise it panics |
| BitReader.AlignedPeek | internal/cricodecs/hca/clhca.go:156-214 | Every byte-aligned read of up to 32 bits is exact |
| BitReader.ShortPeek | internal/cricodecs/hca/clhca.go:156-214 | Reads of up to 12 bits are exact while 24 bits are left |
| BitReader.PeekPanics | internal/cricodecs/hca/clhca.go:193-212 | A concrete in-range read whose window does not fit and which panics |
| BitReader.ValueJoin | internal/cricodecs/hca/clhca.go:216-220 | Successive reads join like one long read |
| BitReader.ClData.ReadTwice | internal/cricodecs/hca/clhca.go:216-224 | The same for the cursor |
| Crc.CrcIsBitwise | internal/cricodecs/hca/clhca.go:246-252 | The table-driven checksum is bit-by-bit division by 0x8005 from zero, for data of any length |
| Crc.Crc16Checksum | internal/cricodecs/hca/clhca.go:246-252 | The loop computes that checksum |
| Crc.CrcIsRemainder | internal/cricodecs/hca/clhca.go:246-252 | message * x^16 = quotient * divisor + checksum, over polynomials of any length |
| Crc.RemainderIsUnique | internal/cricodecs/hca/clhca.go:246-252 | No other quotient and remainder have that property |
| Crc.CrcLinear | internal/cricodecs/hca/clhca.go:246-252 | The checksum is linear over exclusive or |
| Crc.ZeroExactlyWithTrailer | internal/cricodecs/hca/clhcadecoder.go:479-481 | A frame checks out exactly when its last two bytes are the big-endian checksum of the rest |
| Crc.AdjacentBytesDetected | internal/cricodecs/hca/clhca.go:246-252 | Inputs of equal length that differ only within two adjacent bytes never have the same checksum |
| Generators.FullPeriod | internal/cricodecs/hca/clhca.go:362-371 | A generator with multiplier 1 mod 4 and odd increment meets a value again modulo 2^b exactly after multiples of 2^b steps |
| Generators.DistinctModulo16 | internal/cricodecs/hca/clhca.go:362-371 | so sixteen steps modulo 16 visit sixteen values |
| Cipher.Table56IsSubstitution | internal/cricodecs/hca/clhca.go:373-425 | For every 64-bit key code the type 56 table is a permutation of the bytes that fixes 0x00 and 0xFF |
| Cipher.FillTable | internal/cricodecs/hca/clhca.go:414-424 | The walk of stride 17 stops with the write position at exactly 255 |
| Cipher.CipherInit56 | internal/cricodecs/hca/clhca.go:373-425 | The key bytes, seeds, base table and walk build that table |
| Cipher.KeyBytesAre | internal/cricodecs/hca/clhca.go:379-386 | The seven key bytes are the key code less one, or zero, modulo 2^56, least significant first |
| Cipher.SeedRing | internal/cricodecs/hca/clhca.go:388-403 | The six key bytes behind the first form a ring: every third seed is one of them, the next one it combined with the byte before, the one after that the next two combined |
| Cipher.GeneratorIs | internal/cricodecs/hca/clhca.go:362-371 | The generator of a key byte has a multiplier by its parity, its low half made odd as increment, and starts from its high half |
| Cipher.KnownTables | internal/cricodecs/hca/clhca.go:373-425 | The first entry of the tables of three key codes |
| Cipher.Table1IsSubstitution | internal/cricodecs/hca/clhca.go:346-360 | The same for the keyless table of type 1, its skipped values included |
| Cipher.Table1Starts | internal/cricodecs/hca/clhca.go:346-360 | and starts with 11 and 154 |
| Cipher.CipherInit | internal/cricodecs/hca/clhca.go:427-443 | Type selection, with type 56 and key 0 meaning no cipher; other types are refused |
| Cipher.TypesSelect | internal/cricodecs/hca/clhca.go:427-443 | and what the tables of each type do or start with |
| Cipher.DecryptInvertible | internal/cricodecs/hca/clhca.go:334-338 | Decryption with any of these tables is inverted by an explicit table on data of any length, both ways, and keeps the sync word |
| Coefficients.RowIsPrefixCode | internal/cricodecs/hca/clhcatables.go:39-48 | Every row of the tables is a complete prefix code |
| Coefficients.RowIsOrdered | internal/cricodecs/hca/clhcatables.go:39-59 | The words of a row, in order, stand for 0, 1, -1, 2, -2 and so on to the negated resolution, and never get shorter |
| Coefficients.DecodeOneIsReference | internal/cricodecs/hca/clhcadecoder.go:195-214 | Reading the widest code, looking it up and giving bits back is decoding bit by bit; the sign-magnitude form with unsigned wrap-around is its direct reading |
| Coefficients.DecodeRunIsReference | internal/cricodecs/hca/clhcadecoder.go:193-216 | The same for whole spectra, while 24 bits are left at each read |
| Coefficients.CoefficientRoundTrip | internal/cricodecs/hca/clhcadecoder.go:193-216 | For all resolutions 0..15 and representable coefficients, encoded values come back and exactly their bits are consumed |
| Coefficients.PackedStreamHolds | internal/cricodecs/hca/clhcadecoder.go:193-216 | Every encoded run has a byte stream that holds it |
| Coefficients.DequantizeCoefficients | internal/cricodecs/hca/clhcadecoder.go:190-221 | The loop scales decoded values by the gains and clears the rest of the spectrum |
| Channel.StChannel.UnpackScaleFactors | internal/cricodecs/hca/clhcadecoder.go:6-63 | Fixed, difference-coded or absent scale factors, their count in wrapping arithmetic, and the derived high-frequency scales; all slots are stated for rejections too, and every outcome keeps scale factors below 64 |
| Channel.DerivePanicsExactly | internal/cricodecs/hca/clhcadecoder.go:12-60 | Deriving the group scales leaves the array exactly when there are groups and coded bands and groups together are 128 or more, a sum that wrapped around included |
| Channel.ScalesPanicExactly | internal/cricodecs/hca/clhcadecoder.go:6-63 | With all scale factors readable, unpacking them panics in exactly those cases |
| Channel.NeverRead | internal/cricodecs/hca/clhcadecoder.go:6-63 | and no stream at all gives such a channel its scale factors |
| Channel.WrappedScaleAgrees | internal/cricodecs/hca/clhcadecoder.go:38-46 | Byte arithmetic with its mask equals integer arithmetic for every difference that passes the range check |
| Channel.WrappedIntensityAgrees | internal/cricodecs/hca/clhcadecoder.go:102-105 | Wrapped intensities pass the check exactly when the integer ones are in range, and then are equal |
| Channel.StChannel.DeriveHighFrequency | internal/cricodecs/hca/clhcadecoder.go:57-60 | The in-place copy is a simultaneous one: it never reads a slot it has written |
| Channel.CodedScalesRead | internal/cricodecs/hca/clhcadecoder.go:6-63 | In version 3 the coded scale factors are those read in this frame, and each group gets the scale coded for the next group |
| Channel.CodedScalesKept | internal/cricodecs/hca/clhcadecoder.go:66-125 | Up to version 2.00 the high-frequency scales leave the coded scale factors alone whenever both fit |
| Channel.StChannel.UnpackIntensity | internal/cricodecs/hca/clhcadecoder.go:66-128 | Intensities of every version, the kept ones of code 15, rejected differences, and high-frequency scales up to version 2.00; intensities stay below 16 |
| Channel.SideInRange | internal/cricodecs/hca/clhcadecoder.go:6-128 | Whatever the bytes are, and rejected or not, scale factors stay below 64 and intensities below 16 |
| Channel.SecondaryScales | internal/cricodecs/hca/clhcadecoder.go:6-63 | A secondary channel reads its coded scale factors and derives none, in every version |
| SideWriter.ScaleFactorsReadBack | internal/cricodecs/hca/clhcadecoder.go:6-55 | For all eight widths, scale factors written as differences around the middle code, or behind the highest code, or in fixed fields, are read back, and exactly their bits are consumed |
| SideWriter.LevelsReadBack | internal/cricodecs/hca/clhcadecoder.go:66-118 | The same for the eight intensities of every version and width code |
| SideWriter.FifteenReads | internal/cricodecs/hca/clhcadecoder.go:69-116 | A first intensity of fifteen means sevens from version 3 on; before it the other seven stay, and the cursor too |
| SideWriter.SideReadsBack | internal/cricodecs/hca/clhcadecoder.go:6-128 | Everything written for a channel of any type is read back: coded and derived scale factors, group scales, intensities |
| FrameWriter.ChainReadsBack | internal/cricodecs/hca/clhcadecoder.go:491-503 | The same for all channels one after the other |
| FrameWriter.RunsReadBack | internal/cricodecs/hca/clhcadecoder.go:505-511 | All coefficients, by subframe and within it by channel, end where they were written to end |
| FrameWriter.PlanReadsBack | internal/cricodecs/hca/clhcadecoder.go:486-511 | A decrypted frame that holds noise level, boundary, side information and coefficients is accepted at their end, and every coefficient is the written value times the scale of its band and the range of its resolution |
| FrameWriter.FrameReadsBack | internal/cricodecs/hca/clhcadecoder.go:462-512 | Round trip of whole frames as they stand in a file, encrypted and with their checksum: whatever is planned and has room is accepted, read back, and kept for the next frame |
| Resolution.BandLevelClosed | internal/cricodecs/hca/clhcadecoder.go:142 | The wrapped packed noise level gives the plain noise level, one lower below the boundary |
| Resolution.NewResolution | internal/cricodecs/hca/clhcadecoder.go:138-157 | So each resolution is the closed form clamped to the two limits |
| Resolution.ResolutionByDistance | internal/cricodecs/hca/clhcadecoder.go:138-157 | Without limits the resolution is 15 exactly for a negative position, 0 exactly beyond 65, and otherwise the one whose interval of positions it falls in; a band below the boundary is one position lower |
| Resolution.ResolutionMonotone | internal/cricodecs/hca/clhcadecoder.go:138-157 | With any limits a higher scale factor never costs resolution, and a higher noise level or hearing threshold never gains any |
| Resolution.InvertPositions | internal/cricodecs/hca/clhcatables.go:7-13 | The table falls from 14 to 1, each value for the positions behind those of the next higher one |
| Resolution.CalculateResolution | internal/cricodecs/hca/clhcadecoder.go:131-176 | Resolutions of all bands, and both band lists in one array |
| Resolution.BandLists | internal/cricodecs/hca/clhcadecoder.go:159-169 | The two lists are ascending, disjoint, hold exactly the coded bands with a scale factor and without or with a resolution, and fit side by side |
| Resolution.PickIsResolved | internal/cricodecs/hca/clhcadecoder.go:237-253 | Every random pick is a resolved band, every target an unresolved one, and the scale index lies in 0..124 without the clamp |
| Resolution.PickScales | internal/cricodecs/hca/clhcadecoder.go:240 | The pick is the fraction of the resolved bands that the fifteen low bits are of 0x8000 |
| Resolution.FirstRandom | internal/cricodecs/hca/clhcadecoder.go:238 | The first two random numbers of a new decoder |
| Resolution.ReconstructNoise | internal/cricodecs/hca/clhcadecoder.go:224-257 | The loop equals a simultaneous assignment from the old spectrum, and advances the random state once per target |
| Resolution.NoiseIsFilled | internal/cricodecs/hca/clhcadecoder.go:224-257 | The result depends on scale factors, resolutions and random state only, not on what else the list array holds |
| Hfr.CeilCovers | internal/cricodecs/hca/clhca.go:445-454 | The rounded-up quotient is the smallest number of groups that covers the bands |
| Hfr.ReconstructHighFrequency | internal/cricodecs/hca/clhcadecoder.go:260-310 | Panics exactly for the layouts named, and otherwise replaces all bands from the start on by scaled copies of untouched lower ones, the last band by zero |
| Hfr.LegacyReflects | internal/cricodecs/hca/clhcadecoder.go:275-308 | Up to version 2.00 the copy is a reflection at the start band, possible exactly when it is no longer than its source |
| Hfr.LowInRange | internal/cricodecs/hca/clhcadecoder.go:286-308 | In every version the layouts that panic are exactly those without a source for some band |
| Hfr.ScaleSlotsAreFree | internal/cricodecs/hca/clhcadecoder.go:273 | Scales of groups never share a slot with a coded scale factor |
| Rescale.CopyRescales | internal/cricodecs/hca/clhcadecoder.go:286-304 | With tables of powers of one step, a high band of group g has the scale of that group and the shape of its source |
| Rescale.NoiseRescales | internal/cricodecs/hca/clhcadecoder.go:244-253 | and substituted noise the scale of its band, less one step |
| Rescale.NoisyRescales | internal/cricodecs/hca/clhcadecoder.go:224-257 | When the header allows resolution zero and there are bands of both kinds, every band without resolution becomes such a copy of a resolved one, with one random number each; else nothing changes |
| Rescale.RestoredRescales | internal/cricodecs/hca/clhcadecoder.go:514-522 | In the restored spectrum every high band but the last is such a copy of what its source holds in the end, noise included, and the last is zero |
| Rescale.LaterGroups | internal/cricodecs/hca/clhcadecoder.go:275-304 | From version 3 on the source walks down through the first half of the groups and then stays |
| Header.GroupsInRange | internal/cricodecs/hca/clhca.go:803-825 | With the header accepted, the group count is usable exactly when the coded bands are among all bands or there are no groups |
| Header.UnorderedBandsAccepted | internal/cricodecs/hca/clhca.go:812-822 | A concrete accepted header for which it is not |
| Header.DecBandsOrdered | internal/cricodecs/hca/clhca.go:665-683 | The shorter header chunk cannot produce one |
| Header.PairsComplete | internal/cricodecs/hca/clhca.go:849-925 | Every primary channel is followed by its secondary inside the channels, and every secondary follows a primary |
| Header.InitChannels | internal/cricodecs/hca/clhca.go:849-925 | The nested assignment of channel types gives those types |
| Header.TrackTypes | internal/cricodecs/hca/clhca.go:855-913 | The types of tracks of two to eight channels, one by one |
| Header.TypesByTrack | internal/cricodecs/hca/clhca.go:849-925 | With stereo bands every track has the types of its size, wherever it stands; without them, and behind the tracks, all is discrete |
| Header.PairCounts | internal/cricodecs/hca/clhca.go:916-924 | The stereo bands of a pair are coded in its first channel only |
| Header.Validate | internal/cricodecs/hca/clhca.go:785-819 | The checks in their order accept exactly those headers |
| FrameDecoder.ClHCA.DecodeBlockUnpack | internal/cricodecs/hca/clhcadecoder.go:462-512 | The outcome of every frame is exactly that of the checks in their order, decryption, side information of all channels and coefficients by subframe; side information and spectra of all channels are stated for every frame that does not panic, and all ranges of all channels are kept whatever it is |
| FrameDecoder.ClHCA.UnpackFrame | internal/cricodecs/hca/clhcadecoder.go:486-511 | The same after decryption, with the cursor after the last coefficient |
| FrameDecoder.ClHCA.DequantizeAll | internal/cricodecs/hca/clhcadecoder.go:505-509 | Subframe by subframe and channel by channel: where the stream stands, and all spectra, each the coefficients read there times the gains of their bands and zero beyond the coded ones |
| FrameDecoder.ClHCA.DecodeFrames | internal/cricodecs/hca/clhcadecoder.go:355-363 | Frames decoded one after the other on the same arrays have exactly the outcomes of the run, up to the first that breaks off; the waves of every channel are one run of the inverse transform over the restored spectra of all accepted frames; the decoder stays valid whatever the frames are |
| FrameDecoder.ClHCA.DecodeBlock | internal/cricodecs/hca/clhcadecoder.go:355-363 | One frame of such a run: the transform follows an accepted frame only, and only then carries, random state and output change |
| FrameDecoder.ClHCA.DecodeReset | internal/cricodecs/hca/clhca.go:928-941 | Every channel has silence behind it again and the random state its first value; side information stays |
| FrameDecoder.ClHCA.ReadSamples | internal/cricodecs/hca/clhca.go:966-976 | The running index of the three loops hands out the waves of a block one sample of every channel at a time |
| Synthesis.InterleaveBehind | internal/cricodecs/hca/clhca.go:966-976 | Handing out samples block by block hands out the samples of all blocks in order |
| Synthesis.InterleaveAt | internal/cricodecs/hca/clhca.go:966-976 | Sample j of block i of channel k stands at (128 i + j) times the number of channels, plus k |
| Synthesis.SoundEnergy | internal/cricodecs/hca/clhcadecoder.go:355-363 | From silence and with ideal tables, the squares of all samples of a channel over a whole run plus those of the last carry sum to the squares of all its restored spectra |
| Synthesis.BadFramesAreSilent | internal/cricodecs/hca/clhcadecoder.go:355-363 | Leaving out a frame turned away by the checks changes neither the blocks any channel transforms over the whole run nor the state after it |
| Frame.BadFramesSkip | internal/cricodecs/hca/clhcadecoder.go:462-482 | A frame turned away by the checks, anywhere in a run, changes no outcome before or after it |
| Frame.ChecksDecide | internal/cricodecs/hca/clhcadecoder.go:462-482 | A frame is turned away exactly when it is too short, else does not start with 0xFFFF, else has a wrong checksum |
| Frame.NeverAccepted | internal/cricodecs/hca/clhcadecoder.go:486-495 | Under an accepted header with more groups than slots, or in version 3 with groups and 128 or more scale factors, no frame is ever accepted, whatever its bytes and whatever came before |
| Frame.OrderedUnusable | internal/cricodecs/hca/clhca.go:803-825 | With ordered bands these are exactly the version 3 headers with groups whose coded bands and groups together are 128 |
| Frame.UnorderedUnusable | internal/cricodecs/hca/clhca.go:803-825 | Every header with groups and unordered bands is among them |
| Frame.UnusableAccepted | internal/cricodecs/hca/clhca.go:803-825 | A concrete header of each kind passes all checks |
| Frame.BadLayoutAccepted | internal/cricodecs/hca/clhcadecoder.go:260-310 | Two concrete headers pass all checks and have ordered bands but a layout whose copy panics: too few coded bands, and no bands |
| SilentFrame.UsableExactly | internal/cricodecs/hca/clhcadecoder.go:355-363 | Under a header that is one of those or whose frames have room for silence, some frame is accepted exactly when it is not one of those, and some frame is decoded to its end exactly when the high bands have a source as well |
| SilentFrame.BadLayoutReached | internal/cricodecs/hca/clhcadecoder.go:260-310 | Under the two headers without a source for their high bands a frame is accepted, and none is decoded to its end |
| Margins.BreaksOffLate | internal/cricodecs/hca/clhcadecoder.go:462-512 | Under a header that is not unusable a frame breaks off only where the side information of a channel starts in the last 2203 bits, or a coefficient in the last three bytes |
| Margins.SpaciousFrames | internal/cricodecs/hca/clhcadecoder.go:462-512 | so under a header with frames long enough for the longest codes no frame breaks off, whatever its bytes and whatever came before |
| Margins.SpaciousRuns | internal/cricodecs/hca/clhcadecoder.go:355-363 | nor any run of frames, when the high bands have a source |
| Margins.FrameBreaksOff | internal/cricodecs/hca/clhcadecoder.go:462-512 | A concrete frame with a right checksum under an accepted, usable header, on which the bit reader panics |
| FrameDecoder.ClHCA.DecodeBlockTransform | internal/cricodecs/hca/clhcadecoder.go:514-531 | All eight subframes: noise and high bands of every channel, one random state running through all of them, joint stereo, then the inverse transform; the carries, waves and random state left are those of functions on plain values, and an index leaves its array exactly for a bad band layout |
| FrameDecoder.ClHCA.constructor | internal/cricodecs/hca/clhca.go:849-925 | An accepted header gives a valid decoder whose channels share nothing, with silence behind every channel |
| FrameDecoder.FrameChannel.Unpack | internal/cricodecs/hca/clhcadecoder.go:491-503 | Scale factors, then intensities, of which an invalid one rejects nothing, then resolutions and gains |
| FrameDecoder.FrameChannel.Restore | internal/cricodecs/hca/clhcadecoder.go:516-522 | Noise is filled in from the spectrum as it was, before the high bands are mirrored; both from the settled lists of the frame |
| FrameDecoder.FrameChannel.CalculateGain | internal/cricodecs/hca/clhcadecoder.go:179-187 | Scale factors and resolutions in range make both gain look-ups safe |
| FrameDecoder.ApplyIntensityStereo | internal/cricodecs/hca/clhcadecoder.go:313-331 | Both channels get their share of the left band, the right channel loses its own, and the shares sum to twice the band |
| Synthesis.StereoAt | internal/cricodecs/hca/clhcadecoder.go:313-331 | After all pairs, the first channel of a pair has its ratio of each stereo band it had, the second the rest of two, by the intensity of the second; all else is as it was |
| Synthesis.SubframeStereo | internal/cricodecs/hca/clhcadecoder.go:525-530 | so it is for the spectra of a whole subframe, in terms of the restored ones |
| HcaStream.Decoder.DecodeAll | internal/cricodecs/hca/hcadecoder.go:196-217 | The result is the concatenation of all decoded blocks with the delay cut off the front, for delays that span many blocks |
| HcaStream.Decoder.DecodeFrame | internal/cricodecs/hca/hcadecoder.go:162-193 | One block, of which what is left of the delay is cut |
| HcaStream.DropContinues | internal/cricodecs/hca/hcadecoder.go:176-192 | Cutting what is left of the delay from each block cuts the delay from their concatenation |
| HcaStream.Decoder.DecodeToWav | internal/cricodecs/hca/hcadecoder.go:346-412 | The WAV header and the same range of samples in sixteen bits, which readers of WAV files find field by field: tags, sizes, format, consistent rates, every sample at its place; the two range errors never occur |
| HcaStream.WavReads | internal/cricodecs/hca/hcadecoder.go:346-365 | The header says plain samples of sixteen bits, the number of channels and the sampling rate, a byte rate that is the rate times the block size, a block size that fits the channels; the samples stand behind it least significant byte first |
| HcaStream.WavConsistent | internal/cricodecs/hca/hcadecoder.go:346-365 | With every block decoded, the announced data size is right exactly when it is not negative and fits 32 bits |
| HcaStream.PlaysToTheEnd | internal/cricodecs/hca/hcadecoder.go:138-159 | What decodes without an error decodes to the end exactly when the file holds every block |
| HcaStream.LengthDecides | internal/cricodecs/hca/hcadecoder.go:138-159 | When no whole block of the file is refused, the length of the file alone decides between the end, an early end and an error |
| HcaStream.CutWavIsShort | internal/cricodecs/hca/hcadecoder.go:138-159 | What decodes without an error has as many bytes of samples as announced exactly when the file holds every block, and fewer otherwise |
| HcaStream.CutBetweenBlocks | internal/cricodecs/hca/hcadecoder.go:138-159 | Every file that plays some blocks and is cut behind them ends there without an error, with exactly their samples |
| HcaStream.CutWav | internal/cricodecs/hca/hcadecoder.go:138-159 | and its WAV file holds less than the header announces |
| HcaFile.AcceptedFits | internal/cricodecs/hca/clhca.go:785-819 | Every accepted header gives a file that the following rows cover, whatever its other fields |
| HcaFile.FilePlays | internal/cricodecs/hca/hcadecoder.go:162-217 | With the frame decoder as block decoder, the first blocks of a file decode without an error exactly when every frame is decoded to its end, and then their samples are the interleaved waves of one run of the inverse transform per channel |
| HcaFile.DecodeFile | internal/cricodecs/hca/hcadecoder.go:196-217 | Decoding a whole file gives those samples with the delay cut off, and an error when some frame is not decoded |
| HcaFile.DecodePacket | internal/cricodecs/hca/hcadecoder.go:162-193 | One block on the decoder with its arrays is one step of that block decoder: outcome, samples handed out and state left |
| HcaFile.SilentFileCut | internal/cricodecs/hca/hcadecoder.go:138-159 | Files of silent frames play to the end under every header that lets frames through and has room for silence, and cut between two blocks they end without an error and with fewer bytes than announced |
| HcaFile.CutFile | internal/cricodecs/hca/hcadecoder.go:138-159 | A concrete mono file of 256-byte frames: cut after the first, no error and 2048 bytes where 4096 are announced |
| HcaStream.PlayedLength | internal/cricodecs/hca/hcadecoder.go:196-217 | A stream decoded to its end gives every sample of every block |
| Pool.StepOk | internal/exporter/acb.go:86-146 | Every step of a worker pool keeps it in order: jobs and workers match, errors are counted |
| Pool.SendNeverBlocks | internal/exporter/acb.go:95-107 | A worker that reports an error always finds room in the error channel |
| Pool.EachFileOnce | internal/exporter/acb.go:113-124 | Every run hands out a prefix of the files in order, each once, and all of them unless cancelled |
| Pool.FinishedResult | internal/exporter/acb.go:125-145 | A finished pool returns nil exactly when every file succeeded, and counts failures exactly |
| Pool.StepTokens | internal/exporter/acb.go:148-164 | Limiter tokens are taken and given back one for one |
| Pool.PoolProgress | internal/exporter/acb.go:86-126 | A pool waits for nothing but its limiter, so waiting for the workers ends |
| Protocol.DoLinked | internal/unpack/unpacker.go:512-593 | Steps of tasks and of both nested pools keep every pool in order |
| ProtocolLaws.DoInvariant | internal/unpack/unpacker.go:91-107 | In every reachable state the used tokens of each semaphore are exactly the held ones, and within capacity |
| ProtocolLaws.DoMeasure | internal/unpack/unpacker.go:109-167 | A measure falls on every step of every goroutine |
| ProtocolLaws.NeverStuck | internal/unpack/unpacker.go:451-593 | A state with unfinished work always has a step, without cancellation from outside: the rank order of the semaphores rules out deadlock |
| ProtocolLaws.RunsAreSafeAndFinite | internal/unpack/unpacker.go:109-167 | Every run keeps the invariant and is no longer than the measure of its start |
| ProtocolLaws.StoppedMeansDone | internal/unpack/unpacker.go:109-167 | A run that cannot go on has finished every task and returned every token, under any interleaving and cancellation |
| ProtocolOutcomes.RunsAreTruthful | internal/unpack/unpacker.go:451-593 | In every reachable state the phase of each task agrees with what its pools did: it is past its ACB pool as successful only if that was not canceled and every file succeeded, each with an uncanceled HCA pool in which every file succeeded |
| ProtocolOutcomes.SuccessIsEarned | internal/unpack/unpacker.go:451-593 | A task that ends as successful never reached post-processing, or every ACB file was exported with all its HCA files |
| ProtocolOutcomes.FailureIsReported | internal/unpack/unpacker.go:577-593 | A task that left a canceled ACB pool or one with a failed file is on its way to ending as failed, and ends so |
| ProtocolOutcomes.LeavesPool | internal/unpack/unpacker.go:577-593 | A task leaves its ACB pool only finished, for the next step exactly when all went well |
| ProtocolOutcomes.ExitsPassOn | internal/unpack/unpacker.go:459-470 | The result of post-processing is passed on, and only success goes on to the last step |
| ProtocolOutcomes.ConcurrencyBounded | internal/unpack/unpacker.go:47-107 | In every reachable state, over all tasks, no more downloads, AssetStudio runs, post-processings, films and ACB exports go on at a time than the settings or their defaults say, nor HCA conversions when their limit is global |
| ProtocolOutcomes.PoolSizes | internal/unpack/unpacker.go:521-527 | A pool starts as many workers as files and setting allow |
| UsmMask.VideoRoundTrips | internal/cricodecs/usm/usm.go:199-223 | The video mask is a bijection on contents of every length, with an explicit inverse |
| UsmMask.DecodeAfterEncode | internal/cricodecs/usm/usm.go:206-219 | Decoding undoes the inverse on the masked region |
| UsmMask.EncodeAfterDecode | internal/cricodecs/usm/usm.go:206-219 | and the inverse undoes decoding |
| UsmMask.Feedback | internal/cricodecs/usm/usm.go:210-213 | Beyond 0x100 each plain byte is the masked byte, the plain byte 32 places before and the second mask, combined by exclusive or |
| UsmMask.ErrorsSpread | internal/cricodecs/usm/usm.go:210-213 | A changed masked byte changes every later plain byte of its column by the same difference |
| UsmMask.VideoDecoded | internal/cricodecs/usm/usm.go:203-206 | Lengths are kept, short contents and the first 0x40 bytes are unchanged |
| UsmMask.MaskVideo | internal/cricodecs/usm/usm.go:199-223 | The self-feeding loops over a copy compute that decoding |
| UsmMask.AudioSelfInverse | internal/cricodecs/usm/usm.go:225-237 | The audio mask is its own inverse |
| UsmMask.MaskAudio | internal/cricodecs/usm/usm.go:225-237 | The loop over a copy computes it, from 0x140 on |
| UsmMask.SameMasks | internal/cricodecs/usm/usm.go:143-180 | Two keys give the same masks exactly when they agree but for the top byte and the high half of the fifth |
| UsmMask.KnownMasks | internal/cricodecs/usm/usm.go:143-197 | The masks of one key whose bytes all count |
| UsmMask.GetMask | internal/cricodecs/usm/usm.go:143-197 | The table filled slot by slot is the function of the key; the second video mask is the complement of the first, and the audio mask follows from it |
| Afs.AlignRoundsUp | internal/cricodecs/acb/helpers.go:64-66 | For any division that is exact on integer quotients and otherwise within 2^-53, aligning is the integer round-up modulo 2^32, so exact when that fits |
| Afs.ExactDivisionQualifies | internal/cricodecs/acb/helpers.go:64-66 | Exact division is such a division, so the premise can be met |
| Afs.CeilIsExact | internal/cricodecs/acb/helpers.go:64-66 | The rounding error never reaches the next integer |
| Afs.ArchiveRoundTrip | internal/cricodecs/acb/afs.go:24-111 | Every archive a writer lays out gives back each payload by its cue id |
| Afs.EntryRead | internal/cricodecs/acb/afs.go:75-87 | Every directory entry has the id, aligned offset and size that were written |
| Afs.NewAFSArchive | internal/cricodecs/acb/afs.go:24-90 | The reader computes those entries for any bytes, missing numbers read as zero |
| Afs.AFSArchive.FileDataForCueID | internal/cricodecs/acb/afs.go:93-111 | First file with the id, else the first file when its id is 0, else an error; the stream position is restored |
| Streams.StringAtIs | internal/cricodecs/acb/reader.go:98-125 | A string read back is exactly the bytes before the first NUL |
| Streams.Reader.ReadString0 | internal/cricodecs/acb/reader.go:98-115 | Reading in pieces of sixteen finds that string |
| Streams.Reader.ReadBytesAt | internal/cricodecs/acb/reader.go:88-96 | Reads at an offset restore the position |
| UtfWriter.TableRoundTrip | internal/cricodecs/acb/utf.go:52-361 | Parsing a written table, whatever follows it, gives its name, its rows (constants first, then own values) and its schema |
| UtfWriter.ColumnsAre | internal/cricodecs/acb/utf.go:211-215 | Each per-row column has the offset of the sizes of earlier per-row columns |
| UtfWriter.NameOnlyVanishes | internal/cricodecs/acb/utf.go:216-219 | A column with only a name has no value in any row |
| UtfWriter.ConstantsResolve | internal/cricodecs/acb/utf.go:297-307 | Constants resolve to what was written, also when the column is marked per-row too |
| UtfWriter.FieldReads | internal/cricodecs/acb/utf.go:231-295 | Every kind of value is read back, whatever is pooled after it |
| UtfWriter.RowReads | internal/cricodecs/acb/utf.go:327-355 | A written row is read back on top of the constants |
| Utf.NewUTFTable | internal/cricodecs/acb/utf.go:52-137 | The parser computes the meaning of the bytes, and fails exactly when they have none |
| Utf.ReadDetailedUTFTable | internal/cricodecs/usm/metadata.go:324-333 | Parsing through the offset reader gives the meaning of the bytes from the offset on |
| UtfWriter.TableInsideFile | internal/cricodecs/usm/metadata.go:324-333 | so a table written anywhere into a file, whatever surrounds it, gives back its name and rows |
| Utf.UTFTable.ParseSchema | internal/cricodecs/acb/utf.go:155-229 | The running position and row offset give the schema |
| Utf.UTFTable.ReadRows | internal/cricodecs/acb/utf.go:309-361 | Rows by seeking to every field |
| OffsetReader.SameReplies | internal/cricodecs/usm/metadata.go:335-368 | A client that chooses its operations from the replies gets the same replies from the offset reader as from the bytes from there on, even if others move the stream, exactly when it never seeks from the end to a place the stream would go to |
| OffsetReader.LengthTells | internal/cricodecs/usm/metadata.go:345-358 | A client that asks for the length by seeking from the end can tell: the stream answers, the offset reader refuses |
| OffsetReader.OffsetReadSeeker.Read | internal/cricodecs/usm/metadata.go:335-343 | A read at the own position, wherever the stream stands, which is one step of that run and one read of the bytes from the offset on |
| OffsetReader.OffsetReadSeeker.Seek | internal/cricodecs/usm/metadata.go:345-368 | The same for seeks from start and current position; seeks from the end and negative targets are refused |

## Left out

- Input and output, ffmpeg, AssetStudio, HTTP and TCP, logging, configuration files: exports are steps with an arbitrary
  outcome, writes of the WAV file succeed.
- Rounding of 32-bit floats and the conversion to sixteen bits: samples are reals, the conversion is any function.
- The values of the sine, cosine, window and gain tables: only the identities named above are used.
- The hearing curve (`athInit1`): any curve of 128 values.
- Header chunks other than the band counts and the checks: plain field reads.
- MS stereo: a header that asks for it is refused, so it never runs.
- Key scoring (`TestBlock`, `testHCAScore`) and `Seek`.
- Clipping of samples to sixteen bits (`ReadSamples16`); the state of the block decoder after an error, which ends the file.
- The bit reader of `FrameDecoder` copies the frame again after decryption, where the program's reader shares the bytes.
- Protocol.DoLinked: an export that panics outside its recovering function is not modelled, nor is one that never ends; the release of the
  AssetStudio token is not deferred, so a panic in between would lose it.
- HcaStream.Decoder.DecodeFrame: returns a copy where the program returns a slice of its buffer that the next call overwrites.
- UsmMask.GetMask: takes the key as its eight bytes.
- Utf.NewUTFTable: floats are kept as their bits, and memory for very large counts is not limited.
- Afs.NewAFSArchive: memory for very large file counts is not limited.
- The table parser of `usm.go` (`getUTFTable`), which is a different parser.
- The walk over USM chunks, track names and the rest of the ACB extraction.
- Path handling, archives of results, manifests and framing of the worker connection.
