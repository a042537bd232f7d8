# MLow codec, media framing and STUN: a Dafny model with proofs

This project models the parts of the calling stack whose correctness rests on exact, stateful arithmetic, and proves what
the two ends of each wire rely on.

**The MLow entropy codec** (`Bytes`, `RangeSpec`, `RangeProof`, `RangeCoder`, `Symbols`, `CdfTables`, `PulseTables`,
`LogCurves`, `PulseBuild`, `PulseSplits`, `LsfBlock`, `PulseCount` to `PulseInverse`, `PulseCoder`, `GainBlock`, `LtpBlock`,
`PitchTables`, `PitchHeap`, `LagBlock`, `LagCoder`, `PitchBlock`, `FrameCodec`, `FrameCoder`, `FrameSound`).

- The range coder is the one of sections 4.1 and 5.1 of RFC 6716. `RangeSpec` gives its steps as pure functions; `RangeProof`
  reads the encoder's output as a digit string whose pending carries denote an interval, shows the flush ends inside that
  interval, and concludes that a decoder over the bytes, followed by anything, reads every operation back. `RangeCoder` holds
  the two objects, updated in place, proved equal to those steps with no 32-bit wrap.
- A block of the frame (LSF, pulses, gains, LTP, lags) is a *script*: the tree of operations the encoder writes for its
  parameters. Each block has a read function, a lemma that reading a script's bytes returns its parameters (`...Back`), and a
  lemma that on any bytes whatever is read is a parameter set whose script was there (`...Sound`). The encode and decode
  methods are loops over the two coder objects proved equal to the script and to the read function.
- The encoder and decoder keep separate predictor fields and read different tables. `FrameCodec.FramesBack` is the lockstep
  argument: after every internal frame the decoder returned the encoded indices and the two predictors agree, from any
  predictor that earlier packets left. `FrameSound.AnyBytesExplained` is its converse over arbitrary bytes.
- The decoder fetches pitch tables by address from a packed window, the encoder from logical tables. `PitchHeap` proves that
  every address the decoder uses reads back the logical entry.
- `PulseInverse.BuildOfAssemble` and `PulseFrame.AssembleOfBuild` together say that signed vectors within the pulse limits
  and well-formed pulse parameters are in one-to-one correspondence.

**Numeric kernels**, over exact reals for float code and over integers with written-out wrap for fixed-point code: the
mixed-radix transform (`Fft`), half-polynomial NLSF conversion (`NlsfPoly`), the two spacing loops (`NlsfSpacing`), greedy
pulse search (`FcbEnergy`, `FcbKernel`, `FcbSearch`), step-down stability and bandwidth expansion (`Lpc`), the root search
(`A2NlsfPoly`, `A2Nlsf`, `A2NlsfRoots`), unrolled filters and sliding energies (`Filters`), and the voice activity
detector's filter banks, energies and noise levels in fixed point (`Vad`, `VadFrame`).

**Media framing**: RTP headers and session numbering (`Rtp`, section 5.1 of RFC 3550), SRTP packet indices, initialisation
vectors and payload recovery (`Srtp`, sections 3.3.1 and 4.1.1 of RFC 3711), and STUN messages (`Stun`, sections 6, 15, 15.4
and 15.5 of RFC 5389).

Tables that the program expands from embedded seeds are parameters with a stated well-formedness predicate (`LsfOk`, `PulseOk`,
`GainOk`, `LtpOk`, `PitchOk`). For the tables built by the cumulative expansions and by the run-length model, the predicate's
increasing-table part is itself proved (`CdfTables`, `PulseTables`, `PitchTables.ExpandedOk`), and every step of a table is
proved to be its weight's rounded share (`CdfTables.Proportional`). `PulseOk` is proved outright: `PulseBuild.BuildPulseTabs`
builds all pulse tables from nothing, by weights whose shape and mass `PulseSplits` and `PulseTables` describe.

Where code and comments disagree the model follows the code: `BitLogp` is documented as P(0) = 2^-logp, but it is bit 1 that
has that probability; the "3-symbol" extra LSF table has three entries and two symbols; the gain tables' "n" counts entries.

Properties that do not hold of the code in full are stated with the exact condition under which they do:

- `LagBlock.LagRoundTrip`: lag indices survive the wire exactly when they are constant on each segment of their contour.
- The root search can divide by zero: `A2Nlsf.DividesByZero` is an order-16 input that does. `A2Nlsf.LargeDivisorZero` gives the
  exact condition on a bracket (the subtraction wraps), and `A2Nlsf.SearchIsSafe` the condition on the input: the order's growth
  times the sum of coefficient magnitudes. That one is sufficient, not necessary: inputs beyond it may still pass. The
  failing input is a legal argument of the function, but one of its coefficients exceeds what a stable order-16 filter can
  have, so its one caller is not shown to produce it. Under a second bound roots lie in their table cells; one past the
  cell's end is possible, exactly for a last bracket from -1 to 0.
- A root is a sign change of its polynomial across an eighth of a table cell (`A2NlsfRoots.RootsChangeSign`), but for a second
  root from the edge of a cell, where the search takes the sign for granted: `A2NlsfRoots.TakenForGranted` says exactly when that
  is right, and `A2NlsfRoots.SecondRootIsNone` is an input for which it is not.
- The middle of a split table exceeds its ends except for totals of 154, 158 and 159 pulses (`PulseSplits.MiddlePeaked`).
- The fixed-point sigmoid rises except at 159 and at -160, where it drops by two (`LogCurves.SigmStep`).
- A louder frame moves the noise level no more than a quieter one, except exactly across eight times the level from where the
  reciprocal's share was cut below an eighth (`Vad.WeightFalls`; `Vad.WeightRises` is an input).
- `Srtp.RunExact`, from `Srtp.StepExact` and `Srtp.FirstExact`: a receiver places a later packet at its own index exactly when
  it shares the epoch of the packet before, or wraps into the next one within 32767; the first packet exactly when it lies in the
  first epoch.
- `Srtp.OpenProtected`: a protected packet comes back whole unless its payload is empty, which is refused.
- `Rtp.HeaderRoundTrip`: a header that is written survives exactly when its fields fit the wire.

## Model

| member | source | states |
|---|---|---|
| RangeProof.CarryOutDigits | internal/voip/media/mlow/rangecoder.go:351-372 | with carry held in one byte and a run of 0xFF, handing out a 9-bit value appends one base-256 digit to the pending number, the carry reaching through the whole run |
| RangeProof.EncNormalizeMeaning | internal/voip/media/mlow/rangecoder.go:374-382 | renormalising scales the denoted interval by 256 per byte and keeps the bounds that rule out 32-bit wrap |
| RangeProof.EncStepMeaning | internal/voip/media/mlow/rangecoder.go:385-415 | encoding one symbol or bit narrows the denoted interval to that symbol's part |
| RangeProof.PartsTile | internal/voip/media/mlow/rangecoder.go:385-399 | neighbouring symbols' parts meet, and all of them fill the interval |
| RangeProof.PartIsShare | internal/voip/media/mlow/rangecoder.go:385-399 | a symbol above the lowest gets its share of the interval rounded down, the lowest that and the remainder |
| RangeProof.BitParts | internal/voip/media/mlow/rangecoder.go:402-415 | a set bit gets one part in 2^logp, rounded down, at the top, a clear one the rest |
| RangeProof.DecNormalizeSynced | internal/voip/media/mlow/rangecoder.go:83-93 | the decoder's value stays the distance from the interval's top to the input bits, zero-extended past the end |
| RangeProof.DecStartSynced | internal/voip/media/mlow/rangecoder.go:50-62 | a fresh decoder is in that relation to the whole interval for every input |
| RangeProof.TargetInRange | internal/voip/media/mlow/rangecoder.go:97-112 | the decoded frequency lies in [fl, fh) if and only if the value lies in the symbol's part of the interval |
| RangeProof.AfterOpSynced | internal/voip/media/mlow/rangecoder.go:136-166 | advancing past a symbol keeps encoder and decoder intervals the same |
| RangeProof.PlanFits | internal/voip/media/mlow/rangecoder.go:498-507 | the flush value lies in the final interval whatever bits follow it |
| RangeProof.DoneContained | internal/voip/media/mlow/rangecoder.go:498-535 | the finished bytes with any tail denote a point of the final interval |
| RangeProof.RangeCoderRoundTrip | internal/voip/media/mlow/rangecoder.go:83-548 | for every operation sequence that ends without error, no call was refused and a decoder over the bytes with any tail reads every operation back |
| RangeProof.EncStepInv | internal/voip/media/mlow/rangecoder.go:374-399 | every encoder step keeps the width in (2^23, 2^31] and the low end below the wrap bound |
| RangeProof.StepErr | internal/voip/media/mlow/rangecoder.go:385-399 | a step that leaves no error started without one and was not refused: the error is sticky |
| RangeCoder.RangeEncoder.constructor | internal/voip/media/mlow/rangecoder.go:314-323 | a new encoder has sent nothing and is valid |
| RangeCoder.RangeEncoder.CarryOut | internal/voip/media/mlow/rangecoder.go:351-372 | the in-place carry loop equals the carry step |
| RangeCoder.RangeEncoder.Normalize | internal/voip/media/mlow/rangecoder.go:374-382 | the in-place loop equals the normalising step |
| RangeCoder.RangeEncoder.Encode | internal/voip/media/mlow/rangecoder.go:385-399 | one more operation sent, all fields as that sequence of operations demands, no 32-bit wrap; a zero total is refused |
| RangeCoder.RangeEncoder.BitLogp | internal/voip/media/mlow/rangecoder.go:402-415 | one more bit sent |
| RangeCoder.RangeEncoder.EncodeCDF | internal/voip/media/mlow/rangecoder.go:431-445 | the symbol's interval of the table is sent, or the call is refused for a bad index or degenerate table |
| RangeCoder.RangeEncoder.EncodeRawSymbol | internal/voip/media/mlow/rangecoder.go:485-488 | a uniform symbol is sent |
| RangeCoder.RangeEncoder.Done | internal/voip/media/mlow/rangecoder.go:498-535 | the flushed state is the specified one, the comparison does not wrap, and the rest of the buffer is zero |
| RangeCoder.RangeDecoder.constructor | internal/voip/media/mlow/rangecoder.go:50-62 | the decoder starts in the specified state on any buffer |
| RangeCoder.RangeDecoder.Normalize | internal/voip/media/mlow/rangecoder.go:83-93 | the in-place loop equals the normalising step and keeps value below width |
| RangeCoder.RangeDecoder.Decode | internal/voip/media/mlow/rangecoder.go:97-112 | the frequency and remembered divisor are the specified ones |
| RangeCoder.RangeDecoder.Update | internal/voip/media/mlow/rangecoder.go:136-146 | the state after a legal update is the specified one, value below width |
| RangeCoder.RangeDecoder.BitLogp | internal/voip/media/mlow/rangecoder.go:149-166 | the bit and state are the specified ones |
| RangeCoder.RangeDecoder.DecodeCDF | internal/voip/media/mlow/rangecoder.go:197-221 | on any input an increasing table yields one of its symbols, whose operation was just read; a degenerate one sets the error |
| RangeCoder.RangeDecoder.DecodeRawSymbol | internal/voip/media/mlow/rangecoder.go:114-133 | a uniform symbol whose operation was just read |
| RangeCoder.RangeDecoder.Decode64FineSym | internal/voip/media/mlow/rangecoder.go:270-288 | a value below 64 whose operation was just read |
| RangeCoder.CutAfterTarget | internal/voip/media/mlow/rangecoder.go:97-146 | a frequency decoded inside [fl, fh) makes the update that follows legal and equal to reading the operation |
| Symbols.ReadCdf | internal/voip/media/mlow/rangecoder.go:197-221 | what an increasing table yields is in its alphabet and its interval contains the input |
| Symbols.ReadCdfBack | internal/voip/media/mlow/rangecoder.go:197-221 | facing a symbol of a table, the decoder returns that symbol |
| CdfTables.NormalizedIncreasing | internal/voip/media/mlow/cc_tables.go:99-113 | any non-negative weights with positive sum normalise to a strictly increasing table from 0 to at most 32767 |
| CdfTables.NormalizedProportional | internal/voip/media/mlow/cc_tables.go:99-113 | every entry step less one is the weight's share of 32767 less the symbol count, rounded down, and the last entry exceeds that range |
| CdfTables.ExpandShares | internal/voip/media/mlow/celp_enc.go:250-266 | for byte tables the weights so shared are (byte + 1) squared, capped at 65535 |
| CdfTables.CelpDcmfToCmf | internal/voip/media/mlow/celp_enc.go:250-266 | for every byte string below 32767 long, the in-place two-pass expansion is the common expansion: steps proportional to the squared weights, increasing from 0, at most 32767, no 16-bit or 32-bit wrap |
| CdfTables.LsfDcmfToCmf | internal/voip/media/mlow/lsf_seed.go:328-349 | the LSF variant is the same expansion, proportional to the squared weights |
| CdfTables.PitchDcmfToCmf | internal/voip/media/mlow/pitch_seed.go:149-170 | the pitch variant, with its 64-bit sum and cap, is the same expansion, proportional to the squared weights |
| CdfTables.PdfToCmf | internal/voip/media/mlow/cc_tables.go:99-113 | every non-negative pdf with positive sum becomes a table with steps proportional to it, increasing from 0 to at most 32767, with no wrap |
| PulseTables.RunlenPdf | internal/voip/media/mlow/cc_tables.go:165-202 | every run-length pdf is the specified weights, non-negative with a positive entry, through all fixed-point steps |
| PulseTables.MissedAccurate | internal/voip/media/mlow/cc_tables.go:172-180 | the chance that n pulses miss a slot, cut after every factor, is within n units of 2^31 times (1 - 1/slots)^n |
| PulseTables.EndProbComplements | internal/voip/media/mlow/cc_tables.go:172-180 | the chance that a run ends is what the misses leave, up to the cap |
| PulseTables.MassConserved | internal/voip/media/mlow/cc_tables.go:191-192 | after every slot the mass given out and the mass open add up to 2^31 less at most a unit a slot |
| PulseTables.MassHandedOut | internal/voip/media/mlow/cc_tables.go:165-197 | after the last slot less than a 2000th of the mass is open |
| PulseTables.RunWeightsTotal | internal/voip/media/mlow/cc_tables.go:165-197 | the weights of a table add up to 2^31 but for a unit a slot and a 2000th, and the first is its slot's chance |
| PulseTables.Log2linOctave | internal/voip/media/mlow/cc_tables.go:57-74 | the fixed-point power lies in its octave, at the foot of it for whole exponents |
| PulseTables.Log2linShape | internal/voip/media/mlow/cc_tables.go:57-74 | within the octave it grows by the fraction's multiplier in 128ths, rounded down |
| LogCurves.Lin2logOctave | internal/voip/media/mlow/cc_tables.go:51-55 | the fixed-point logarithm names the octave of every number |
| LogCurves.Lin2logRises | internal/voip/media/mlow/cc_tables.go:51-55 | the logarithm never falls |
| LogCurves.Log2linRises | internal/voip/media/mlow/cc_tables.go:57-74 | the power never falls |
| LogCurves.SigmStep | internal/voip/media/mlow/cc_tables.go:76-92 | the sigmoid rises at every step except at 159 and -160, where it drops by two |
| LogCurves.SigmSymmetric | internal/voip/media/mlow/cc_tables.go:76-92 | opposite arguments have complementary values |
| LogCurves.RescaleRises | internal/voip/media/mlow/cc_tables.go:187-190 | a likelier end stays likelier after the perceptual rescaling |
| LogCurves.ScaleFalls | internal/voip/media/mlow/cc_tables.go:181-186 | more pulses never raise the rescaling exponent by more than the one unit the sigmoid's drop can cost |
| PulseTables.CreateRunlenTable | internal/voip/media/mlow/cc_tables.go:165-202 | for every slot count the forty tables have steps proportional to those weights, are increasing and have one entry more than slots |
| PulseBuild.SplitLogNotPositive | internal/voip/media/mlow/cc_tables.go:121-140 | for every total up to 159 and every split, the fixed-point log probability is not positive, so its power of two is never zero and the division is safe |
| PulseBuild.MiddlePositive | internal/voip/media/mlow/cc_tables.go:132-140 | the middle split of every total keeps a positive weight |
| PulseBuild.ShortLogIs | internal/voip/media/mlow/cc_tables.go:43-55 | on totals up to 159 the logarithm is the plain parabola with no bit lost |
| PulseBuild.SplitPdf | internal/voip/media/mlow/cc_tables.go:132-155 | every split pdf is the specified weights, non-negative with a positive entry |
| PulseSplits.SplitSymmetric | internal/voip/media/mlow/cc_tables.go:132-155 | the weights of k and n - k are equal |
| PulseSplits.SplitEnds | internal/voip/media/mlow/cc_tables.go:132-155 | up to 80 pulses the end weights are exactly 2^(30 - n), and zero past 30 |
| PulseSplits.SplitInOctave | internal/voip/media/mlow/cc_tables.go:132-140 | every weight is within a factor of two of 2^30 less its loss in bits |
| PulseSplits.MiddlePeaked | internal/voip/media/mlow/cc_tables.go:132-155 | from two pulses on the middle weight exceeds the ends, except for totals 154, 158 and 159 |
| PulseBuild.BuildPulseTabs | internal/voip/media/mlow/cc_tables.go:142-202 | all split and run-length tables, as built, have steps proportional to those weights and satisfy the well-formedness predicate with nothing assumed |
| LsfBlock.SmplLsfState.Advance | internal/voip/media/mlow/lsf.go:57-71 | the analysis mirror makes the encoder's predictor move |
| LsfBlock.EncodeSmplLsf | internal/voip/media/mlow/encoder.go:311-355 | the block's script is sent and the predictor moves as specified |
| LsfBlock.DecodeSmplLsf | internal/voip/media/mlow/lsf.go:93-155 | the result and decoder are those of the read function, and the decoder-side predictor moves |
| LsfBlock.ReadLsfBack | internal/voip/media/mlow/lsf.go:93-155 | facing an encoded LSF block the decoder returns its selector, grid, sixteen residuals and extra index |
| LsfBlock.ReadLsfSound | internal/voip/media/mlow/lsf.go:93-155 | on any input the indices returned are in range and are what an encoder would have written there |
| LsfBlock.LsfScriptDependsOnStage1 | internal/voip/media/mlow/encoder.go:313-336 | frame 0 ignores the predictor and later frames use only the previous selector |
| LsfBlock.SelectorTables | internal/voip/media/mlow/encoder.go:313-320 | the selector table: one for the first frame, two by whether the selector before was zero |
| LsfBlock.GridTables | internal/voip/media/mlow/encoder.go:335-345 | the grid table: one for each answer to whether the selector is repeated and whether it is zero |
| PulseCount.TriTIsTri | internal/voip/media/mlow/pulse.go:60-65 | the masked 32-bit formula with its wrapping products equals the triangular cumulative count, k = 0 included |
| PulseCount.EncodeCount | internal/voip/media/mlow/encoder.go:370-389 | the count's triangular interval is sent |
| PulseCount.DecodeCount | internal/voip/media/mlow/pulse.go:59-88 | the linear search returns the count whose interval was read |
| PulseCount.ReadCountBack | internal/voip/media/mlow/pulse.go:70-87 | facing an encoded count the decoder returns it |
| PulseCount.FrameLimits | internal/voip/media/mlow/pulse.go:7-20 | either selector allows 160 pulses a frame |
| PulseCount.RunTableIs | internal/voip/media/mlow/pulse.go:156-160 | a run over the last slots is coded with the end of the table for the next multiple of eight and the pulses left |
| PulseCount.HalfTableIs | internal/voip/media/mlow/pulse.go:106-109 | a frame's split is coded with the whole table of its total |
| PulseCount.QuarterTableIs | internal/voip/media/mlow/pulse.go:100-124 | a half's split is coded with the entries of its total's table that leave both quarters within 40 |
| PulseBlock.ReadSplitSound | internal/voip/media/mlow/pulse.go:90-126 | on any input the four counts are at most 40 each, sum to the total, and are what was written |
| PulseBlock.ReadSplitBack | internal/voip/media/mlow/pulse.go:90-126 | facing encoded splits the decoder returns the four counts, including the forced splits at 80 and 160 |
| PulseBlock.ReadAllRunsBack | internal/voip/media/mlow/pulse.go:137-174 | facing encoded run symbols the decoder returns them with the same shrinking windows |
| PulseBlock.ReadAllRunsSound | internal/voip/media/mlow/pulse.go:137-174 | on any input the run position stays inside the subframe and the symbols are what was written |
| PulseVector.PlacesOfRuns | internal/voip/media/mlow/analysis.go:555-583 | the run symbols of a subframe lead back to its nonzero slots and magnitudes, one symbol per unit of magnitude |
| PulseVector.FramePlacesOfRuns | internal/voip/media/mlow/analysis.go:548-584 | the same for the flat list of all four subframes |
| PulseVector.ScatterRestores | internal/voip/media/mlow/pulse.go:202-208 | scattering signed magnitudes over a vector's support restores the vector |
| PulseSigns.ToBitsOfToInt | internal/voip/media/mlow/analysis.go:595-602 | unpacking a packed sign word gives the signs back, most significant first |
| PulseSigns.SignsRestored | internal/voip/media/mlow/analysis.go:587-606 | batches of fifteen and their remainder restore every sign |
| PulseSigns.WordsRestored | internal/voip/media/mlow/pulse.go:178-200 | packing the signs that words spell gives the words back |
| PulseSigns.ReadSignsBack | internal/voip/media/mlow/pulse.go:178-200 | facing encoded sign words the decoder returns them |
| PulseFrame.AssembleOfBuild | internal/voip/media/mlow/analysis.go:528-608 | for every 320-vector with at most 40 pulses a subframe, building parameters and assembling them is the identity |
| PulseFrame.ReadPulsesBack | internal/voip/media/mlow/pulse.go:34-210 | facing encoded pulse parameters the decoder returns counts, runs and sign words |
| PulseFrame.ReadPulsesSound | internal/voip/media/mlow/pulse.go:34-210 | on any input what is read are writable parameters whose script was there |
| PulseFrame.PulseVectorRoundTrip | internal/voip/media/mlow/encoder.go:360-446 | vector to encoder bytes, with any tail, to vector is the identity for every codable vector |
| PulseInverse.PlacesInjective | internal/voip/media/mlow/pulse.go:152-173 | run symbols are determined by the positions and magnitudes they name |
| PulseInverse.BuildOfAssemble | internal/voip/media/mlow/pulse.go:137-208 | the vector of any writable parameters is codable, each subframe's magnitudes sum to its count, and building from it returns the parameters |
| PulseCoder.BuildPulseParams | internal/voip/media/mlow/analysis.go:528-608 | the loops compute the parameters of the vector |
| PulseCoder.EncodeSmplPulses | internal/voip/media/mlow/encoder.go:360-465 | the pulse script is sent: count, forced or coded splits, run symbols, sign words |
| PulseCoder.DecodeSmplPulses | internal/voip/media/mlow/pulse.go:34-233 | the result is that of the read function and the pulse array is the vector the parameters stand for |
| PulseCoder.FlipSigns | internal/voip/media/mlow/pulse.go:189-198 | shifting the word through bit 15 flips exactly the magnitudes whose sign bit is clear |
| GainBlock.OffsetTable | internal/voip/media/mlow/cc_tables.go:409-412 | the 92-entry residual window lies inside its 177-entry row and is increasing for all 32-bit gains, because of the floor at -85 |
| GainBlock.GainQExact | internal/voip/media/mlow/gains.go:32-44 | for symbols of the tables the wrapped gain arithmetic is exact |
| GainBlock.ReconReads | internal/voip/media/mlow/cc_tables.go:441-452 | an even address inside the rodata reads its entry, everything else zero |
| GainBlock.OffsetNearest | internal/voip/media/mlow/gains.go:55-61 | the residual window starts at the attenuation to the nearest unit, from 0 to 85 |
| GainBlock.RowByTens | internal/voip/media/mlow/gains.go:49-62 | tens of pulses pick the residual row, 30 and more the last, and the window is its slice |
| GainBlock.ReadGainsBack | internal/voip/media/mlow/gains.go:18-65 | facing encoded gains the decoder returns them; residuals of empty subframes read as zero |
| GainBlock.ReadGainsSound | internal/voip/media/mlow/gains.go:18-65 | on any input the gains read are what was written, in their alphabets |
| GainBlock.EncodeSmplGains | internal/voip/media/mlow/encoder.go:469-508 | the gain script is sent, with windows from the reconstructed gains |
| GainBlock.DecodeSmplGains | internal/voip/media/mlow/gains.go:18-65 | symbols as read, and the four reconstructed log gains |
| LtpBlock.ReadLtpBack | internal/voip/media/mlow/pitch.go:41-76 | facing encoded LTP symbols the decoder returns them and both predictors end at the last coded gain and filter |
| LtpBlock.ReadLtpSound | internal/voip/media/mlow/pitch.go:41-76 | on any input the LTP symbols read are what was written, with the predictors they imply |
| LtpBlock.EncodeLtp | internal/voip/media/mlow/encoder.go:518-547 | the LTP script is sent, predictors moved, weighted gain sum accumulated |
| LtpBlock.DecodeLtp | internal/voip/media/mlow/pitch.go:46-77 | symbols, predictors and gain sum are those of the read function |
| LtpBlock.ModeBySum | internal/voip/media/mlow/pitch.go:77-168 | the lag table is chosen by the gain sum against four times each threshold |
| LtpBlock.WeightIsTaps | internal/voip/media/mlow/pitch.go:58-64 | a gain counts all three taps of its symmetric filter |
| LtpBlock.FiltByDistance | internal/voip/media/mlow/cc_tables.go:434-439 | a filter's interval goes by its distance from the filter before alone |
| LtpBlock.GainByRow | internal/voip/media/mlow/cc_tables.go:414-417 | the gain before picks the row, the first row where there is none |
| PitchTables.EveryIndexFound | internal/voip/media/mlow/pitch.go:108-121 | an injective index map of 217 contours into 1..217 hits every index, so the contour search never fails |
| PitchTables.ExpandedOk | internal/voip/media/mlow/pitch_seed.go:219-243 | for every seed weight bytes the expanded pitch tables are increasing from zero and of the required sizes |
| PitchTables.DeltaByDistance | internal/voip/media/mlow/pitch.go:177-182 | a lag's interval goes by its distance from the lag before alone |
| PitchTables.IndexInRange | internal/voip/media/mlow/pitch.go:96-105 | a contour's interval among those of its first block is its interval among all |
| PitchTables.DecodeBlockseg | internal/voip/media/mlow/pitch_seed.go:99-117 | whatever the seed bytes, a record has one to six segments, blocks below 9, lengths 1 to 4 |
| PitchHeap.RegionServes | internal/voip/media/mlow/mem.go:131-139 | the six regions are disjoint: an address inside one is served by it, with the bytes stored there |
| PitchHeap.HeaderReads | internal/voip/media/mlow/pitch.go:80-85 | the five header words read through the window are the contour count and the table addresses |
| PitchHeap.RecordReads | internal/voip/media/mlow/mem.go:66-83 | block, length and count of every contour record read back through the 0x44-byte layout |
| PitchHeap.MapReads | internal/voip/media/mlow/mem.go:103-103 | the contour map's bytes read back |
| PitchHeap.BoundReads | internal/voip/media/mlow/mem.go:105-110 | the first-block bounds read back |
| PitchHeap.LagWindow | internal/voip/media/mlow/pitch.go:94-104 | any window of the index table read through the heap is that window of the logical table |
| PitchHeap.TransitionReads | internal/voip/media/mlow/pitch.go:96-96 | the transition row read at a stride of 20 bytes is the logical row |
| PitchHeap.DeltaReads | internal/voip/media/mlow/pitch.go:169-181 | every 65-entry delta window lies in its 320-entry table and reads back |
| PitchHeap.SmplMem.constructor | internal/voip/media/mlow/mem.go:56-113 | the regions built are the specified image of the tables |
| PitchHeap.SmplMem.RegionFor | internal/voip/media/mlow/mem.go:131-139 | the first region covering the range is returned, or nothing |
| PitchHeap.SmplMem.ReadCdfAt | internal/voip/media/mlow/mem.go:182-189 | entry by entry the 16-bit little-endian reads at the address |
| LagBlock.LosslessWhenConstant | internal/voip/media/mlow/pitch.go:136-198 | spreading segment lags over the eight slots restores the indices if and only if they are constant on each segment |
| LagBlock.ReadLagsBack | internal/voip/media/mlow/pitch.go:79-202 | facing an encoded contour the decoder finds the contour and every segment's lag, in absolute and predicted mode |
| LagBlock.LagRoundTrip | internal/voip/media/mlow/pitch.go:284-333 | contour recovered always; all eight lag indices recovered if and only if segment-constant |
| LagBlock.ReadLagsSound | internal/voip/media/mlow/pitch.go:87-202 | on any input the contour and lags read are what an encoder would have written, when the first-block ranges are exact |
| LagBlock.StepFits | internal/voip/media/mlow/pitch.go:318-329 | with block steps in [-1, 2] every delta window lies inside its table |
| LagCoder.EncodeLagsWire | internal/voip/media/mlow/pitch.go:284-333 | the lag script is sent, with the encoder's own index arithmetic |
| LagCoder.DecodeLags | internal/voip/media/mlow/pitch.go:79-202 | contour, block lags and predictor through the heap are those of the read function over logical tables; the stray write after the first segment leaves no trace |
| LagCoder.DecodeSegment | internal/voip/media/mlow/pitch.go:178-182 | the decoder's window start, in which the previous lag cancels, is the encoder's |
| LagCoder.FindContour | internal/voip/media/mlow/pitch.go:108-121 | the search returns the contour with the decoded index |
| PitchBlock.PitchRoundTrip | internal/voip/media/mlow/encoder.go:513-564 | parameters survive if and only if the lags are segment-constant, and then decoder predictor equals encoder predictor |
| PitchBlock.ReadPitchSound | internal/voip/media/mlow/pitch.go:33-202 | on any input the pitch block read is one an encoder could have written there |
| PitchBlock.EncodeSmplPitch | internal/voip/media/mlow/encoder.go:513-564 | the pitch script is sent and the encoder's predictor ends at the last block and last lag index |
| PitchBlock.DecodeSmplPitch | internal/voip/media/mlow/pitch.go:33-202 | indices, contour, block lags and predictor are those of the read function |
| FrameCodec.TurnLinks | internal/voip/media/mlow/lsf.go:118-131 | the selector mismatch reset makes both sides' predictors agree; without it they agree if they did before |
| FrameCodec.InternalBack | internal/voip/media/mlow/decoder.go:119-140 | one internal frame: the decoder returns what was sent and predictors stay linked |
| FrameCodec.FramesBack | internal/voip/media/mlow/decoder.go:119-160 | lockstep over all internal frames, from any decoder predictor |
| FrameCodec.FrameRoundTrip | internal/voip/media/mlow/encoder.go:568-602 | every well-formed packet that fits the buffer is read back from its bytes with any tail, without error, with linked predictors after every internal frame, whatever earlier packets left |
| FrameCodec.PacketVectorsBack | internal/voip/media/mlow/encoder.go:568-602 | the pulse vectors of all internal frames come back from the packet's bytes with any tail |
| FrameCodec.FreshPacket | internal/voip/media/mlow/decoder.go:105-160 | decoding a packet gives the same parameters and state from any two starting predictors |
| FrameCoder.EncodeSmplFrame | internal/voip/media/mlow/encoder.go:568-602 | header byte and finished body, or overflow exactly when the coder ended in error |
| FrameCoder.DecodeInternal | internal/voip/media/mlow/decoder.go:119-140 | one internal frame's parameters, predictor and decoder as read, and the pulse vector |
| FrameCoder.DecodeActiveFrame | internal/voip/media/mlow/decoder.go:105-160 | the three frames' parameters, pulse vectors and the persistent predictor are those of the read function |
| FrameSound.InternalSound | internal/voip/media/mlow/decoder.go:119-140 | any bytes: an internal frame read is writable and was written there by a linked encoder |
| FrameSound.AnyBytesExplained | internal/voip/media/mlow/decoder.go:105-160 | any bytes, any predictor: decoding is reading back some well-formed packet |
| FrameSound.NeverFails | internal/voip/media/mlow/decoder.go:105-160 | no input makes the decoder set its error, for every well-formed table set |
| Fft.SmallestFactor | internal/voip/media/mlow/fft.go:24-37 | the result is the least divisor above one |
| Fft.NormTimes | internal/voip/media/mlow/fft.go:16-21 | magnitudes of complex numbers multiply, and the imaginary unit squares to minus one |
| Fft.SumByResidue | internal/voip/media/mlow/fft.go:62-76 | a sum over p*m terms equals the sum over residues of the p-strided sums |
| Fft.RadixStep | internal/voip/media/mlow/fft.go:62-76 | one bin of p*m points is the twiddled sum of p smaller transforms' bins at k mod m |
| Fft.FftRec | internal/voip/media/mlow/fft.go:41-76 | for every length and stride the output slice is the direct transform and nothing else is written |
| Fft.Cfft | internal/voip/media/mlow/fft.go:80-83 | the whole transform of the input |
| NlsfPoly.CoefIsProduct | internal/voip/media/mlow/synth.go:251-262 | the coefficient recurrence is the product of (1 + c z + z^2) at every z |
| NlsfPoly.NlsfPoly | internal/voip/media/mlow/synth.go:251-262 | the half recursion yields the first half+1 coefficients of the palindromic product |
| NlsfPoly.Nlsf2A | internal/voip/media/mlow/synth.go:224-249 | every coefficient, from both ends, is that of (P(1+z) + Q(1-z))/2, for every even order |
| NlsfPoly.LpcValue | internal/voip/media/mlow/synth.go:224-249 | those coefficients have that value at every z |
| NlsfSpacing.ShiftConserves | internal/voip/media/mlow/synth.go:139-149 | a step moves margin without changing the total |
| NlsfSpacing.SettledSpaced | internal/voip/media/mlow/synth.go:162-167 | rebuilt frequencies have exactly the margins left, the one up to pi included, and are spaced iff none is negative |
| NlsfSpacing.SpacedExists | internal/voip/media/mlow/synth.go:116-168 | frequencies meeting all minimum spacings exist iff the spacings add up to at most pi |
| NlsfSpacing.OneRoundEnough | internal/voip/media/mlow/synth.go:136-161 | a margin whose neighbours can cover it ends the loop after one round: it is then zero, they are lower by exactly what it lacked, all others are unchanged |
| NlsfSpacing.StabilizeNlsf | internal/voip/media/mlow/synth.go:116-168 | at most 1000 rounds on the input's margins, the first smallest brought in round n to n times the step at its neighbours' cost alone, until none is negative; a violation its neighbours can cover is gone after one round, its margin then zero; the result meets every spacing iff the loop ended by itself, never when they exceed pi; spaced input unchanged |
| NlsfSpacing.LsfMinDist | internal/voip/media/mlow/lsf_quant.go:217-264 | the same rounds; success iff every spacing is met, and never when they exceed pi; on success the last margins, on failure the input; a violation its neighbours can cover is gone after one round |
| FcbEnergy.EnergyStep | internal/voip/media/mlow/celp_enc.go:658-664 | adding a pulse changes the filtered energy by twice its signed kernel sum plus the response's own energy |
| FcbEnergy.DenominatorStep | internal/voip/media/mlow/celp_enc.go:658-670 | the common change and the kernel entry together update the energy with a pulse at any slot |
| FcbEnergy.CrossHolds | internal/voip/media/mlow/celp_enc.go:659-663 | the train against the shifted response is the signed sum of autocorrelation values |
| FcbKernel.FiltMa | internal/voip/media/mlow/celp_enc.go:215-235 | the coefficient-by-coefficient filter, with its shortcut for a leading one, is the moving average |
| FcbKernel.FirIsAuto | internal/voip/media/mlow/celp_enc.go:1268-1280 | filtering a response's reverse with the response is its autocorrelation, last lag first |
| FcbKernel.FlippedKernel | internal/voip/media/mlow/celp_enc.go:1268-1293 | for every response up to the longest, the mirrored buffer is what the pulse search assumes of it |
| FcbSearch.NonZeroRange | internal/voip/media/mlow/celp_enc.go:473-484 | exactly the slots within the response's reach |
| FcbSearch.UpdateArrays | internal/voip/media/mlow/celp_enc.go:651-670 | after each iteration num and den are correlation and energy (plus 1e-16) of the train with a pulse at each slot |
| FcbSearch.ChosenStep | internal/voip/media/mlow/celp_enc.go:461-469 | the rising threshold picks the first prefix with the highest energy less price per pulse |
| FcbSearch.Search | internal/voip/media/mlow/celp_enc.go:610-707 | every pulse is a best next one; the reported count is the first best prefix, and gain and energies are exactly those of that prefix |
| FcbSearch.TrainIsFiltered | internal/voip/media/mlow/celp_enc.go:1086-1096 | a pulse train is its codevector through the response |
| FcbSearch.FcbSynthesize | internal/voip/media/mlow/celp_enc.go:1086-1096 | the coded pulses synthesise the codevector of their train |
| Lpc.IsStable | internal/voip/media/mlow/lpc.go:288-331 | true iff every step-down reflection coefficient is within the bound |
| Lpc.UpAfterDown | internal/voip/media/mlow/lpc.go:301-308 | stepping up with the coefficient a step down removed restores the filter |
| Lpc.Rc2a | internal/voip/media/mlow/lpc.go:225-241 | the in-place pairs compute the filter of the reflection coefficients |
| Lpc.StableIsReflection | internal/voip/media/mlow/lpc.go:225-331 | a filter built from reflection coefficients is stable iff the square of each is within the bound, for coefficients past the first other than plus and minus one |
| Lpc.ChirpsBetween | internal/voip/media/mlow/lpc.go:334-347 | the overall factor after n rounds lies between 1 - n(n + 1)/2000 and 1 - n/1000, and is zero after 1000 |
| Lpc.ZeroIsStable | internal/voip/media/mlow/lpc.go:288-331 | the zero filter passes |
| Lpc.BweExpand | internal/voip/media/mlow/lpc.go:244-251 | coefficient i is scaled by the i-th power |
| Lpc.Stabilize | internal/voip/media/mlow/lpc.go:334-347 | stops within 1000 expansions, at the first of the growing expansions of the input that is stable; stable input unchanged |
| A2NlsfPoly.TransPoly | internal/voip/media/mlow/lpc.go:426-434 | the in-place loops equal the transformation, with 32-bit wrap |
| A2NlsfPoly.Transformed | internal/voip/media/mlow/lpc.go:426-434 | for every input and x, the result as a polynomial in x is the combination of multiples of the angle that the input stood for (s = -1 is the program, s = 1 bounds it) |
| A2NlsfPoly.TransExact | internal/voip/media/mlow/lpc.go:426-434 | below the wrap the 32-bit transformation is the exact one |
| A2NlsfPoly.EvalPoly | internal/voip/media/mlow/lpc.go:436-444 | the loop is the fixed-point Horner value |
| A2NlsfPoly.Init | internal/voip/media/mlow/lpc.go:446-460 | both polynomials are those of the filter |
| A2NlsfPoly.PolyMeaning | internal/voip/media/mlow/lpc.go:446-460 | below the wrap, P and Q at x = 2 cos w are cosine sums whose coefficients, multiplied back by z + 1 or z - 1, are the symmetric sum or difference of the filter and its reverse |
| A2NlsfPoly.Bwexpander | internal/voip/media/mlow/lpc.go:414-424 | every coefficient is scaled by the running 32-bit chirp |
| A2NlsfPoly.ChirpAccurate | internal/voip/media/mlow/lpc.go:414-424 | the running chirp at coefficient i is the power i + 1 of the first, within half a unit a step |
| A2NlsfPoly.ScaledFloors | internal/voip/media/mlow/lpc.go:414-424 | a scaled coefficient is its product with the chirp, rounded down, with no wrap |
| A2NlsfPoly.BoundKept | internal/voip/media/mlow/lpc.go:414-424 | no expansion enlarges the bound on the polynomials' values |
| A2NlsfPoly.ValuesBounded | internal/voip/media/mlow/lpc.go:426-460 | for every input, no value of P or Q inside the table's range exceeds the order's growth times 65536 plus the sum of coefficient magnitudes |
| A2Nlsf.HalvedBracket | internal/voip/media/mlow/lpc.go:500-513 | three bisections keep the ends on two sides and within that bound |
| A2NlsfRoots.BracketPlaced | internal/voip/media/mlow/lpc.go:500-513 | three bisections end on two points an eighth of the cell apart, where the fraction says up to the rounding of the halvings, with the polynomial's values at them on opposite sides |
| A2NlsfRoots.InterpolatedRounds | internal/voip/media/mlow/lpc.go:514-526 | where nothing wraps the last step is 32 lo / (lo - hi) to the nearest for small values, and next to it for large ones |
| A2NlsfRoots.RootsChangeSign | internal/voip/media/mlow/lpc.go:464-567 | every root of every input: opposite signs at two points an eighth of a cell apart around the frequency, no sign change since the root before passed over; the search gives up only when its last expansion runs out of sign changes |
| A2NlsfRoots.TakenForGranted | internal/voip/media/mlow/lpc.go:496-535 | a second root from a cell's edge is a sign change iff the polynomial does not start the cell opposite the assumed sign, or is zero at the upper end |
| A2NlsfRoots.SecondRootIsNone | internal/voip/media/mlow/lpc.go:464-535 | an order-2 input whose second reported root is no sign change |
| A2NlsfRoots.SignsAlternate | internal/voip/media/mlow/lpc.go:534-535 | the sign a search starts from alternates from root to root of the same polynomial |
| A2NlsfRoots.TableDoubles | internal/voip/media/mlow/mem.go:195-213 | the cosine table meets the double-angle formula within four units of 2^-13 |
| A2NlsfRoots.TableFalls | internal/voip/media/mlow/mem.go:195-213 | the table falls strictly, and opposite angles have opposite values |
| A2NlsfRoots.FirstChirpDoubles | internal/voip/media/mlow/lpc.go:550-551 | the expansion's distance from one doubles every round until nothing is left |
| A2NlsfRoots.EvenlySpread | internal/voip/media/mlow/lpc.go:544-549 | without enough roots the frequencies are multiples of one even share of the half circle |
| A2Nlsf.LargeDivisorZero | internal/voip/media/mlow/lpc.go:514-526 | interpolation divides by zero iff the lower end is large and the ends are within 31 of the full 32-bit span |
| A2Nlsf.InterpolatedShare | internal/voip/media/mlow/lpc.go:514-526 | within a quarter of that span the quotient is 0 to 32, and 33 exactly for the bracket from -1 to 0 |
| A2Nlsf.SilkA2Nlsf | internal/voip/media/mlow/lpc.go:464-567 | the loop stops by the measure (expansions, roots left, table steps left) with the specified outcome in its arrays |
| A2Nlsf.SearchIsSafe | internal/voip/media/mlow/lpc.go:464-567 | for every input: a division by zero only from a bracket that nearly spans 32 bits, and never when the value bound is at most 0x7ffffff0; every slot filled; below 2^30 every root lies in its table cell, cells never decreasing |
| A2Nlsf.SafeAtOrder16 | internal/voip/media/mlow/lpc.go:464-583 | at the program's order, a sum of magnitudes up to 1025110 excludes the division by zero, and up to 479787 puts every root in its cell |
| A2Nlsf.DividesByZero | internal/voip/media/mlow/lpc.go:464-526 | a concrete order-16 input on which the search divides by zero in the first cell |
| Filters.FiltAr2 | internal/voip/media/mlow/postfilter.go:101-139 | the four-wide form equals the second-order recurrence for every length and carried state |
| Filters.FiltAr1 | internal/voip/media/mlow/postfilter.go:142-171 | the five-wide form equals the first-order recurrence |
| Filters.Undone2 | internal/voip/media/mlow/postfilter.go:101-139 | the moving average with the negated coefficients gives the second-order filter's input back |
| Filters.Undone1 | internal/voip/media/mlow/postfilter.go:142-171 | the same for the first order |
| Filters.PitchHpFilter | internal/voip/media/mlow/pitch_enc.go:54-83 | in place and unrolled, every output is the input's step plus 0.96 of the output before, for every length |
| Filters.Pieces2 | internal/voip/media/mlow/postfilter.go:101-139 | filtering a signal in two pieces with the carried state equals filtering it whole |
| Filters.Pieces1 | internal/voip/media/mlow/postfilter.go:142-171 | the same for the first-order form |
| Filters.CalcE1 | internal/voip/media/mlow/pitch_enc.go:212-221 | every running energy is between the direct window energy and that plus 1e-9 |
| Vad.AllpassBounded | internal/voip/media/mlow/vad.go:188-206 | for any 16-bit sample neither branch wraps and states stay within 2^27 |
| Vad.PairIsBands | internal/voip/media/mlow/vad.go:188-206 | the low band is the sum of the branch outputs and the high band their difference, over 2048 and rounded to the nearest or at the 16-bit limit |
| Vad.SplitBounded | internal/voip/media/mlow/vad.go:188-206 | the bound holds over every run |
| Vad.AnaFiltBank1 | internal/voip/media/mlow/vad.go:188-206 | both bands and states are those of the sample-pair recurrence |
| Vad.AnaFiltBank1Inplace | internal/voip/media/mlow/vad.go:210-228 | over one buffer the result is the same recurrence, as the high band starts past the input |
| Vad.BandEnergy | internal/voip/media/mlow/vad.go:289-311 | the band's energy is the saturating sum, exact and never negative |
| Vad.EighthFloors | internal/voip/media/mlow/vad.go:302 | samples are scaled down by eight before squaring |
| Vad.UpdateLevel | internal/voip/media/mlow/vad.go:237-260 | the new level and reciprocal equal the unbounded recurrence, reciprocal at least 1, level in 1..0xFFFFFF, no zero divisor |
| Vad.WeightFalls | internal/voip/media/mlow/vad.go:242-249 | at a fixed level a louder frame weighs no more, unless it crosses eight times the level from where the reciprocal's share was cut below an eighth; and never by more than 9 |
| Vad.WeightRises | internal/voip/media/mlow/vad.go:242-249 | at level 1 the weight rises from 127 to 128 between energies 8 and 9 |
| Vad.MinCoefFalls | internal/voip/media/mlow/vad.go:233-236 | the start-up floor falls as one over the 16-frame blocks begun and is gone after 1000 frames |
| Vad.NextLevelMoves | internal/voip/media/mlow/vad.go:237-260 | the reciprocal moves toward that of the frame's energy and not past it, and the level is its reciprocal, capped |
| Vad.VadState.GetNoiseLevels | internal/voip/media/mlow/vad.go:231-261 | all four levels move by that recurrence and the invariant holds again |
| Vad.VadState.Measure | internal/voip/media/mlow/vad.go:287-313 | energies of all bands then noise levels, invariant kept |
| Vad.SmoothedBetween | internal/voip/media/mlow/vad.go:254 | smoothing by a 16-bit weight stays between the old value and the target with no wrap |
| VadFrame.HpStepBounded | internal/voip/media/mlow/vad.go:177-184 | for any 16-bit sample no high-pass step wraps and its state stays within 2^16 |
| VadFrame.BandsBounded | internal/voip/media/mlow/vad.go:280-285 | over every run of frames all seven filter states stay bounded |
| VadFrame.Layout | internal/voip/media/mlow/vad.go:269-282 | in the shared buffer no bank overwrites a band that an earlier one left |
| VadFrame.Detector.SplitFrame | internal/voip/media/mlow/vad.go:264-285 | the buffer's four slices are the bands of the recursive split, lowest high-passed |
| VadFrame.Detector.Analyse | internal/voip/media/mlow/vad.go:264-313 | on any frame the energies are the saturating sums of those bands, noise levels follow their recurrence, and the whole invariant holds again |
| Rtp.HeaderRoundTrip | internal/voip/media/rtp.go:49-124 | for every header written into any buffer, decoding the buffer returns it iff its fields fit the wire |
| Rtp.WireLayout | internal/voip/media/rtp.go:54-69 | flag bits, big-endian fields and sources stand where section 5.1 of RFC 3550 puts them |
| Rtp.ExtensionLayout | internal/voip/media/rtp.go:71-75 | profile, length in words and data of the extension follow |
| Rtp.Encode | internal/voip/media/rtp.go:49-78 | the buffer after writing and the header's size, also where CSRC count and list disagree; too small, or an index past the end (a panic in the program), exactly by the lengths |
| Rtp.DecodeHeader | internal/voip/media/rtp.go:80-124 | the decoded header, cut-short extensions left empty |
| Rtp.RtpSession.CreatePacket | internal/voip/media/rtp.go:182-190 | the packet carries the current numbers and both counters advance with wrap |
| Rtp.SessionHeaderFits | internal/voip/media/rtp.go:31-47 | a session's packets fit the wire in twelve bytes and carry its numbers |
| Srtp.XorAllUndone | internal/voip/media/srtp.go:208-215 | applying a keystream twice is the identity |
| Srtp.XorIsBits | internal/voip/media/srtp.go:208-215 | a bit of the exclusive or is set iff the two bits differ |
| Srtp.StepExact | internal/voip/media/srtp.go:124-136 | a later packet gets its own index iff it shares the epoch or wraps into the next within 32767 |
| Srtp.FirstExact | internal/voip/media/srtp.go:124-129 | the first packet gets its own index iff it lies in the first epoch |
| Srtp.RunExact | internal/voip/media/srtp.go:124-140 | every packet of an increasing run gets its own index iff the first lies in the first epoch and each next one shares the epoch or wraps into the next within 32767 |
| Srtp.SmallGapsFollowable | internal/voip/media/srtp.go:124-136 | gaps up to 32767 from the first epoch meet that condition |
| Srtp.SenderIndex | internal/voip/media/srtp.go:72-74 | the i-th packet sent has index s0 + i |
| Srtp.IvLayout | internal/voip/media/srtp.go:142-159 | the vector with the salt taken out is four zeros, the 32-bit id, the 48-bit index, two zeros |
| Srtp.IvDistinct | internal/voip/media/srtp.go:142-159 | packets that differ in source id or index never share an initialisation vector under one salt |
| Srtp.RunIvsDistinct | internal/voip/media/srtp.go:142-159 | any two packets of a sending run use different vectors |
| Srtp.TagCoversPacket | internal/voip/media/srtp.go:88-92 | the tag closes the packet and covers every byte before it |
| Srtp.OpenProtected | internal/voip/media/srtp.go:72-122 | opening at the protecting index returns the packet, or refuses it iff its payload is empty |
| Srtp.SessionRecovers | internal/voip/media/srtp.go:72-140 | a receiver of any followable part of a run recovers every header and non-empty payload |
| Srtp.SrtpContext.UpdateRoc | internal/voip/media/srtp.go:124-136 | the counter moves as specified |
| Srtp.SrtpContext.Protect | internal/voip/media/srtp.go:72-95 | header, payload under the keystream of the packet's own index, and tag, for any header; an error where the header runs past the packet |
| Srtp.SrtpContext.Unprotect | internal/voip/media/srtp.go:97-122 | packet or error, and the counter untouched by refused data |
| Stun.BuildStunMessage | internal/voip/transport/stun.go:60-101 | for any attribute bytes and any id, each computed attribute is over a header that already counts it |
| Stun.BuiltIsMessage | internal/voip/transport/stun.go:60-101 | for encoded attributes the message is header and attributes with the computed ones last |
| Stun.MacCoversPrefix | internal/voip/transport/stun.go:63-76 | the hashed bytes are the emitted prefix with the length field ending at the integrity attribute |
| Stun.MacCoversMessage | internal/voip/transport/stun.go:63-76 | without a fingerprint they are exactly the emitted bytes before it |
| Stun.CrcCoversPrefix | internal/voip/transport/stun.go:78-93 | the checksummed bytes are exactly the emitted bytes before the fingerprint |
| Stun.ParseBack | internal/voip/transport/stun.go:282-312 | encoded attributes parse back in order, types and unpadded data |
| Stun.HeaderLayout | internal/voip/transport/stun.go:94-101 | type, length of what follows, cookie and id stand where section 6 of RFC 5389 puts them |
| Stun.AttrLayout | internal/voip/transport/stun.go:44-54 | type, unpadded length, data and zeros up to a multiple of four |
| Stun.BuildThenParse | internal/voip/transport/stun.go:60-315 | parsing a built message that fits 16-bit lengths returns type, id and every attribute |
| Stun.ParsedInPlace | internal/voip/transport/stun.go:282-312 | on any bytes the attributes are consecutive slices inside the data |
| Stun.ParseStunResponse | internal/voip/transport/stun.go:210-315 | the loop terminates in bounds and returns type, method, class, id, attributes, error code and reason, and connection id |
| Stun.ErrorParsed | internal/voip/transport/stun.go:299-307 | a built message with an error of class c and number n below 100 is parsed to code 100c + n and its reason |
| Stun.ConnIdParsed | internal/voip/transport/stun.go:308-310 | a success response's connection id is the big-endian value of its eight bytes |
| Stun.TypeSplits | internal/voip/transport/stun.go:238-247 | method and class bits of every type are separated again |
| Stun.KnownTypes | internal/voip/transport/stun.go:238-247 | the type numbers of section 6 of RFC 5389 and section 13 of RFC 5766 |
| Stun.KnownNames | internal/voip/transport/stun.go:238-271 | the registered methods, the two private types and the four classes are named |
| Stun.BarePings | internal/voip/transport/stun.go:215-232 | without the cookie only the two private types are messages: indications with an id and no attributes |
| Stun.BuiltTypeParsed | internal/voip/transport/stun.go:60-270 | a message built with some method and class parses as that method and class, the two private types excepted |

## Left out

- Raw bits at the back of the buffer, `EncodeUint`/`DecodeUint`, inverse-CDF tables, `Tell` and the bit counter: MLow frames use none of them, so the consumed length is the front bytes alone.
- Wire config 1 and its pulse-count tables, which the encoder cannot write: the frame methods take packets whose rate bit is 0.
- Contents of the seed blobs: hypotheses on the tables, as are the contour shapes and index map.
- Decoder branches that well-formed tables rule out: the -1 split, a negative run position, an empty delta interval, a contour outside the map.
- Per-subframe and per-segment lag copies (`IntLagQ6`, `SampleLagQ6`) and the raw residual counts of the LSF result: copies of values the model has.
- Fields nothing reads back: the `HasPitch` flag and the decoder's own copy of the lag index under its encoder name.
- LagBlock.ReadLagsSound: assumes that each first-block index range holds only contours starting in that block, which the encoder never needs.
- Float rounding, fused multiply-add and 32-bit float constants: the float kernels are over exact reals, so `Lpc.Stabilize` reaches the zero filter at factor 0 exactly.
- FcbSearch.Search: models the main rate only; the FEC rate and the delayed-decision search are not modelled, and a search that accepts nothing with a positive threshold leaves the caller's old report in place.
- A2Nlsf.SearchIsSafe: its condition on the input is one way; whether a larger input meets the bad bracket depends on every value it visits.
- Real-input packing of the transform, spectral weighting, noise generation, synthesis, postfilter gains, voicing classifier and rate control.
- VadFrame.Detector.Analyse: takes frames whose length is a multiple of 8 below 1024; the program's one caller passes 320.
- VadFrame.Detector.SplitFrame: the same lengths; for others the banks can overlap in the shared buffer.
- The detector's signal-to-noise mapping and hangover.
- AES, HMAC, CRC and key derivation are uninterpreted; nothing is claimed about authentication, and `Unprotect` ignores the tag as the code does.
- Out-of-order SRTP arrival beyond `Srtp.StepExact`.
- STUN attribute names and the XOR-mapped address text, and all sockets, signalling and storage.
