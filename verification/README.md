# Verified model of the MOSS TTS server's core

The repository is a text-to-speech server in Go around neural network models. The networks are foreign calls; what is
modelled here, in Dafny, is the code around them that computes or coordinates something by itself:

- **Random numbers** (`Words`, `Lcg`, `Pcg64`, `PcgSeed`, `PcgGenerator`, `PcgDistribution`, `PcgNumPy`). The PCG64
  generator over pairs of 64-bit words, its seeding in closed form, and its number theory: exact full period,
  bijectivity, equidistribution, and that seeding merges no two seeds; with NumPy's own numbers for one seed.
- **Resampling** (`Resample`). The padded, strided polyphase loop filters the input by a windowed sinc below the lower
  of the two rates and reads it at the times of the output frames.
- **Tokenizer** (`Text`, `Tokenizer`, `TokenizerRules`, `ModelFile`, `Vocabularies`). The Viterbi search over arrays
  is optimal among all segmentations; encoding and decoding round-trip; the Protocol Buffers reader undoes an encoder
  (Protocol Buffers Encoding, sections 'Base 128 Varints' and 'Message Structure').
- **Sampling** (`Permutations`, `Sampler`, `Nucleus`). Repetition penalty, top-k, top-p and the draw.
- **Worker pool** (`Pool`, `PoolProgress`, `PoolSafety`, `PoolClosing`, `PoolTickets`, `PoolNil`, `PoolDeadlock`,
  `PoolLeak`, `PoolWakeup`, `PoolSweep`, `PoolAlone`). The two-tier scheduler as a state machine in which every
  observable step of every thread interleaves, with its safety over all runs; what a whole cleanup sweep, and an
  acquisition that is not interrupted, come to; and where it does not make progress, with the runs that lead there and
  the exact conditions.
- **Text chunks** (`Chunker`, `SplitRules`, `ChunkBudget`, `TokenBudget`, `CleanPieces`, `JoinOverrun`). Where
  sentences end and texts are cut and packed; splitting, binary search and packing lose nothing; exactly when they
  keep the token budget, for all texts and for one text; and for which vocabularies of the tokenizer they do.
- **Worker connection** (`Framing`, `Writers`, `Demux`, `DemuxFrames`, `DemuxSafety`, `DemuxDelivery`, `DemuxCallers`,
  `DemuxCancel`, `DemuxOvertaken`). Frames round-trip; goroutines that write under the lock interleave whole frames; responses are
  demultiplexed safely and without loss over every interleaving of callers, reader, request loop and tasks, and a
  cancelled task stops.
- **Voice cache** (`Recency`, `PreloadCache`). A memory cache that is exactly the most recently touched voices.
- **Audio files** (`WavFormat`, `Wav`, `Silence`). WAVE files are read back within a stated bound, unknown chunks are
  ignored (Multimedia Programming Interface and Data Specifications 1.0, section 'Waveform Audio File Format (WAVE)');
  trimming keeps every voiced window.
- **Generation** (`Generation`, `Batching`). The stopping rules of the frame loop, and batching without loss.

`Options` holds the one option type, `Sequences` the set of a sequence's elements. Code that the source runs on
arrays, buffers or object fields is a method with loops or a class here, proved against a function or predicate; the
theorems are lemmas about those. The three concurrent protocols are transition functions over explicit states, with
one action for each step another thread can observe; `RunAll` gives the state after any sequence of actions, and the
theorems hold for every such state.

Conventions: floating-point numbers are reals, minus infinity is a separate value (as are infinities and what is no
number where a division by 0 can make them), and exp, sin and cos are parameters with the laws stated where they are
used. 32-bit and 64-bit words are bounded integers with explicit wrap-around. What the networks, the clock, the disk
and the operating system answer are parameters, so every answer is covered.

## What the code does differently from what one would expect

Each of these is proved as stated.

- The decoder compares four characters of a byte piece with the three-character constant `<0x`, so byte pieces never
  contribute to decoded text (`Tokenizer.ByteNeverNamed`).
- If piece 0 is unknown and a second unknown piece follows, the second one becomes the unknown id
  (`ModelFile.UnknownID`).
- With a negative unknown id, which a trainer specification can set, back-tracking stops at the last rune that needs
  the unknown token and drops everything before it (`Tokenizer.NegativeUnknownTruncates`); `Tokenizer.AllIdsComeBack`
  says exactly when all tokens come back.
- The budget splitter can exceed its budget, also with the tokenizer's own counter: it steps back from a fitting
  prefix to a boundary, and the shorter prefix may have more tokens (`TokenBudget.BudgetCanFail`); and two slices
  joined without a space may have more tokens than the two together (`JoinOverrun.JoinCanFail`).
  `Chunker.BudgetExactly` and `Chunker.PackExactly` say exactly for which counters this never happens,
  `ChunkBudget.ChunksFitExactly` exactly for which texts; `CleanPieces.CleanChunksFit` gives a condition on the
  vocabulary.
- The scan for a boundary to step back to looks at bytes, so that ideographic commas and full stops, which split
  sentences and clauses, are no boundaries to it (`SplitRules.CutIsBehindBoundary`).
- A draw of exactly 0 returns position 0 whether or not the filters removed it (`Nucleus.SampleFromScores`).
- After `Close` the pool still starts reserve cores for callers, exactly if reserve cores are allowed at all
  (`PoolClosing.ClosedPoolExactly`); and callers that waited are given a nil core without an error
  (`PoolNil.NilCoreIsReached`), exactly those whose requests were in the queue when it was closed
  (`PoolTickets.NilCoreExactly`). A caller that queues later waits until its own context is done
  (`PoolNil.LateCallerWaits`).
- `Close` and the dispatcher take the pool lock and the queue lock in opposite orders and can wait for each other for
  good (`PoolDeadlock.DeadlockIsReached`, `PoolDeadlock.DeadlockIsForGood`); `PoolDeadlock.CloseFinishesExactly` says
  exactly when `Close` can finish.
- A core delivered to a caller that takes the branch of its context is lost to the pool (`PoolLeak.LeakIsReached`,
  `PoolLeak.ComesBackExactly`).
- A caller that queues after the last release has looked at the queue waits although all work cores are idle
  (`PoolWakeup.OverlookedIsReached`).
- A cancellation that the request loop takes before the task has registered itself is answered with an error, and the
  task is never cancelled (`DemuxOvertaken.OvertakenIsReached`, `DemuxOvertaken.NeverCancelled`);
  `DemuxCancel.AcknowledgedExactly` says exactly when one takes effect.
- With a repetition penalty of 0 the greedy path makes no number of a listed score of 0 and passes over it, while the
  sampling path keeps it (`Sampler.PenaltyPathsAgree`).
- An audio response whose samples the channels do not divide announces fewer bytes than it carries, so the reader
  loses its place (`Framing.AudioMessageWellFramed`); `EncodeWAV` panics on such a waveform (`Wav.EncodeWAV`).
- The seed is meant to go out with the first chunk of a stream, but the flag it depends on is set just before it is
  tested, so no chunk carries it (the `seedUsed` of `Batching.Batcher.DecodePending`, kept by every operation).
- The frame that completes a frozen run is returned but never announced to the callback (`Batching.Generate`).
- The local decoder records its tokens itself, so every token is listed twice for it; the sets are right
  (`Generation.TakeFrame`).
## Model

| member | source | states |
|---|---|---|
| `Lcg.ClosedForm` | pkg/sampler/pcg64.go:127-132 | After n steps the state is a^n·s + c·(1 + a + … + a^(n-1)) modulo m. |
| `Lcg.GeoValuation` | pkg/sampler/pcg64.go:127-132 | For a ≡ 1 (mod 4), 2^k divides 1 + a + … + a^(n-1) if and only if it divides n. |
| `Lcg.FullPeriod` | pkg/sampler/pcg64.go:127-132 | With such a multiplier and an odd increment, a run is back at its start if and only if 2^k divides the number of steps. |
| `Lcg.Distinct` | pkg/sampler/pcg64.go:127-132 | Two positions of one run hold the same state if and only if their distance is a multiple of the period. |
| `Lcg.AffineInjective` | pkg/sampler/pcg64.go:127-132 | A step with an odd multiplier merges no two states. |
| `Pcg64.Mul64` | pkg/sampler/pcg64.go:180-187 | The two words of a 64-bit product are the product of the numbers. |
| `Pcg64.Mul128Mod` | pkg/sampler/pcg64.go:180-187 | The three-product multiplication is multiplication modulo 2^128. |
| `Pcg64.Add128Mod` | pkg/sampler/pcg64.go:190-197 | Addition with the detected carry is addition modulo 2^128. |
| `Pcg64.ShiftLeft1` | pkg/sampler/pcg64.go:200-204 | Shifting the two words with the carried bit doubles modulo 2^128. |
| `Pcg64.RotrSwapsParts` | pkg/sampler/pcg64.go:207-213 | Rotation exchanges the parts of a word above and below the rotation point, and stays a word. |
| `Pcg64.UnrotrRotr` | pkg/sampler/pcg64.go:207-213 | Rotating right is undone by the opposite rotation. |
| `Pcg64.RotrUnrotr` | pkg/sampler/pcg64.go:207-213 | Every word is the rotation of some word: rotation is onto. |
| `Pcg64.OutputBijective` | pkg/sampler/pcg64.go:135-145 | For each high word, the low word and the output determine each other. |
| `PcgSeed.XorShiftInjective` | pkg/sampler/pcg64.go:164-177 | The final xor-shift of both mixing functions loses nothing. |
| `PcgSeed.HashValueInjective` | pkg/sampler/pcg64.go:164-170 | `hashmix` is injective in its value whenever the updated constant is odd. |
| `PcgSeed.HashConstOdd` | pkg/sampler/pcg64.go:23-33 | The hash constants stay odd however often they are updated. |
| `PcgSeed.MixInjective` | pkg/sampler/pcg64.go:173-177 | `mix` is injective in its first argument. |
| `PcgSeed.EntropyOfSeed` | pkg/sampler/pcg64.go:43-53 | A 64-bit seed gives at most two entropy words, and the zero-padded words give the seed back. |
| `PcgSeed.CrossMixInjective` | pkg/sampler/pcg64.go:68-78 | The full cross mix maps no two pools to one, whatever the constant it starts from. |
| `PcgSeed.MixedPoolInjective` | pkg/sampler/pcg64.go:42-78 | Two seeds never lead to the same mixed pool. |
| `PcgSeed.StateWordInjective` | pkg/sampler/pcg64.go:92-101 | A generated state word determines the pool word it was drawn from. |
| `PcgSeed.StateWordsDetermineSeed` | pkg/sampler/pcg64.go:42-107 | The first two 64-bit words generated already determine the seed. |
| `PcgGenerator.PCG64.constructor` | pkg/sampler/pcg64.go:35-39 | A signed seed, taken as a 64-bit word, gives the increment 2(w2·2^64 + w3) + 1 and the state a(increment + w0·2^64 + w1) + increment, modulo 2^128, from the four words drawn from its mixed pool; the multiplier a is written out. |
| `PcgGenerator.PCG64.InitSeedSequence` | pkg/sampler/pcg64.go:42-124 | The loops and in-place pool updates compute exactly that increment and state. |
| `PcgGenerator.PCG64.SetIncrement` | pkg/sampler/pcg64.go:116-118 | The stored increment is the doubled sequence number plus one, modulo 2^128. |
| `PcgGenerator.PCG64.SetStart` | pkg/sampler/pcg64.go:120-123 | The state becomes a(increment + start) + increment modulo 2^128: a step from zero, the start value added, and another step. |
| `PcgGenerator.StateInClosedForm` | pkg/sampler/pcg64.go:120-123 | Step, add, step comes to that one multiplication. |
| `PcgGenerator.PCG64.Step` | pkg/sampler/pcg64.go:127-132 | The two state words change to (state·multiplier + increment) modulo 2^128. |
| `PcgGenerator.PCG64.NextUint64` | pkg/sampler/pcg64.go:135-145 | The state advances by one step and the output is the permuted new state. |
| `PcgGenerator.PCG64.Float64` | pkg/sampler/pcg64.go:148-152 | The result is the top 53 output bits over 2^53, hence in [0, 1). |
| `PcgGenerator.SplitSeed` | pkg/sampler/pcg64.go:43-53 | The splitting loop yields the words of the seed, least significant first. |
| `PcgGenerator.FillPool` | pkg/sampler/pcg64.go:58-66 | The filling loop leaves the hashed, zero-padded entropy in the pool and the constant updated four times. |
| `PcgGenerator.CrossMixPool` | pkg/sampler/pcg64.go:68-78 | The two nested loops leave the pool and the constant of the full cross mix. |
| `PcgGenerator.CrossPair` | pkg/sampler/pcg64.go:71-76 | One pair of the mix changes the target word only, and nothing when source and target coincide. |
| `PcgGenerator.GenerateState` | pkg/sampler/pcg64.go:88-101 | The eight output words are drawn going round the pool twice. |
| `PcgGenerator.SeededIncOdd` | pkg/sampler/pcg64.go:116-118 | Every seed gives an odd increment. |
| `PcgGenerator.SeededFullPeriod` | pkg/sampler/pcg64.go:42-132 | For every seed, the seeded generator is back at its first state if and only if the number of steps is a multiple of 2^128. |
| `PcgGenerator.FullPeriod128` | pkg/sampler/pcg64.go:127-132 | From any 128-bit state, and with an odd increment, n steps return to the start if and only if 2^128 divides n. |
| `PcgGenerator.StepBijective` | pkg/sampler/pcg64.go:127-132 | Every 128-bit state has exactly one predecessor. |
| `PcgGenerator.NextInjective` | pkg/sampler/pcg64.go:127-132 | No two states have the same successor. |
| `PcgGenerator.SeedsDistinct` | pkg/sampler/pcg64.go:42-124 | Different seeds never give the same generator (state and increment). |
| `PcgGenerator.SignedSeedsDistinct` | pkg/sampler/pcg64.go:35-39 | The same for the signed seeds callers pass. |
| `PcgNumPy.SeededAsInNumPy` | pkg/sampler/pcg64.go:6-8 | For seed 42 the increment and the state are the ones that NumPy gives for default_rng(42), as the program promises for equal seeds. |
| `PcgNumPy.FirstOutputAsInNumPy` | pkg/sampler/pcg64.go:135-152 | So is the first output, 14276969152011380360, whose top 53 bits make 0.77395604855596…. |
| `PcgDistribution.EveryStateOnce` | pkg/sampler/pcg64.go:127-132 | In one period every 128-bit state is visited at exactly one position. |
| `PcgDistribution.Equidistribution` | pkg/sampler/pcg64.go:135-145 | In one period every 64-bit value is output exactly 2^64 times. |
| `Resample.GcdIsGreatest` | pkg/audio/resample_torch.go:99-104 | The common divisors of two numbers are exactly the divisors of the gcd. |
| `Resample.GcdInt` | pkg/audio/resample_torch.go:99-104 | The loop over reassigned variables returns that gcd. |
| `Resample.ConvolutionCommonFactor` | pkg/audio/resample_torch.go:27-29 | Multiplying both rates by the same number changes no output sample. |
| `Resample.TargetLengthCommonFactor` | pkg/audio/resample_torch.go:27-33 | Nor does it change the number of output frames. |
| `Resample.ClampCuts` | pkg/audio/resample_torch.go:49-66 | Clamping the kernel argument is the same as cutting the kernel off, because the window vanishes at both ends. |
| `Resample.PhaseTimeIsTime` | pkg/audio/resample_torch.go:44-48 | A tap of a phase row stands at i/orig - n/new for the input and output frame it joins. |
| `Resample.OutsideRow` | pkg/audio/resample_torch.go:36-41 | Input frames outside a row lie outside the low-pass width, so the row misses nothing. |
| `Resample.EntryIsWeight` | pkg/audio/resample_torch.go:44-66 | A table entry is the kernel weight of the frame it is applied to. |
| `Resample.BuildRow` | pkg/audio/resample_torch.go:42-67 | The inner loop fills the row of one phase and no other. |
| `Resample.BuildKernels` | pkg/audio/resample_torch.go:39-68 | The nested loops fill every phase row with those entries. |
| `Resample.PadChannel` | pkg/audio/resample_torch.go:73-79 | The padded buffer is the channel with zeros on both sides. |
| `Resample.TapsInBounds` | pkg/audio/resample_torch.go:81-92 | Every column start lies inside the input, so every padded access is in bounds. |
| `Resample.RowIsConvolution` | pkg/audio/resample_torch.go:81-94 | The taps of one row add up to the sum over all input frames. |
| `Resample.Convolve` | pkg/audio/resample_torch.go:88-92 | The accumulating loop is the inner product of a row with the padded channel. |
| `Resample.OutputSample` | pkg/audio/resample_torch.go:81-94 | One output sample equals the plain convolution sum. |
| `Resample.FillChannel` | pkg/audio/resample_torch.go:72-95 | A channel is written completely and the samples of the other channels are left alone. |
| `Resample.ReducedRates` | pkg/audio/resample_torch.go:27-29 | A result for the reduced rates is a result for the original ones. |
| `Resample.ConvolutionIsFiltered` | pkg/audio/resample_torch.go:36-66 | A convolution sum is the sum of the input frames weighted by a Hann-windowed sinc at that cutoff, six zero crossings wide on either side. |
| `Resample.LengthIsDuration` | pkg/audio/resample_torch.go:33-33 | The number of output frames n is the least with n·src at least dest·frames. |
| `Resample.ResampledIsFiltered` | pkg/audio/resample_torch.go:23-97 | A whole result is such a filtered signal, sample by sample. |
| `Resample.TorchSincResample` | pkg/audio/resample_torch.go:23-97 | The interleaved result has the least number of frames that lasts as long as the input, and each sample is the input at that time filtered by the windowed sinc with a cutoff of 0.99 times the lower of the two rates; equal rates return the input. |
| `Text.TrimParts` | pkg/tokenizer/tokenizer.go:325-327 | Trimming takes white space off both ends and nothing else. |
| `Text.TrimUnique` | pkg/tokenizer/tokenizer.go:325-327 | A text without outer white space is what trimming it, surrounded by white space, returns. |
| `Tokenizer.BestIsUpperBound` | pkg/tokenizer/tokenizer.go:226-284 | No segmentation scores more than the dynamic program records for its end. |
| `Tokenizer.BestPathIsPath` | pkg/tokenizer/tokenizer.go:286-298 | Following the kept steps back gives a segmentation with exactly the recorded score. |
| `Tokenizer.BestPathIsOptimal` | pkg/tokenizer/tokenizer.go:214-299 | The segmentation found has the greatest score among all segmentations into allowed pieces and fallback runes. |
| `Tokenizer.StepOnwards` | pkg/tokenizer/tokenizer.go:243-283 | From every position some step leads on: a matching piece, or the single-rune fallback. |
| `Tokenizer.Segmentable` | pkg/tokenizer/tokenizer.go:239-284 | Every segmentation of a first part can be completed to one of the whole text. |
| `Tokenizer.EndReached` | pkg/tokenizer/tokenizer.go:286-293 | The end of the text is always reached, so back-tracking starts from a real entry. |
| `Tokenizer.BackEntry` | pkg/tokenizer/tokenizer.go:286-293 | A stored back pointer is strictly smaller than its position and describes the last step of the best segmentation. |
| `Tokenizer.AllIdsComeBack` | pkg/tokenizer/tokenizer.go:286-293 | Back-tracking returns every id of a segmentation, so its early stop never happens, if and only if the unknown id is not negative or no step starts where no piece matches and no byte piece names the rune. |
| `Tokenizer.StepIsKnown` | pkg/tokenizer/tokenizer.go:263-275 | A step has a negative id if and only if it needs the unknown token and that is negative. |
| `Tokenizer.NegativeUnknownTruncates` | pkg/tokenizer/tokenizer.go:286-293 | A concrete vocabulary with unknown id -1 and a one-letter text: the segmentation has two steps, and no token comes back. |
| `Tokenizer.Relax` | pkg/tokenizer/tokenizer.go:239-284 | Trying all steps from one position brings all three arrays to the state of the dynamic program after that position. |
| `Tokenizer.Viterbi` | pkg/tokenizer/tokenizer.go:226-298 | The array algorithm returns ids of the best segmentation: all of them if and only if the unknown id is not negative or no step of it needs the unknown token. |
| `Tokenizer.BackTrack` | pkg/tokenizer/tokenizer.go:286-298 | Following the pointers and reversing gives those ids in text order. |
| `Tokenizer.ReversedAt` | pkg/tokenizer/tokenizer.go:294-297 | The reversal used by the token list puts element k at the k-th place from the end. |
| `Tokenizer.ReverseTokens` | pkg/tokenizer/tokenizer.go:294-297 | The reversing loop returns that reversal. |
| `Tokenizer.Encode` | pkg/tokenizer/tokenizer.go:214-299 | Encoding is the best segmentation of the normalized text with its leading meta symbol, whole if and only if the unknown id is not negative or no step needs it; the empty text gives no token. |
| `Tokenizer.ByteNeverNamed` | pkg/tokenizer/tokenizer.go:315-322 | The test of a four-character slice against a three-character constant never succeeds. |
| `Tokenizer.Decode` | pkg/tokenizer/tokenizer.go:305-328 | The decoding loop returns the trimmed concatenation of what each token contributes. |
| `Tokenizer.PlainSpells` | pkg/tokenizer/tokenizer.go:305-328 | The pieces of a segmentation without fallback, byte or unknown spell the text they cover. |
| `Tokenizer.RoundTrip` | pkg/tokenizer/tokenizer.go:214-328 | For such a segmentation, decoding after encoding gives the text up to normalization, meta symbols and outer white space. |
| `Tokenizer.RoundTripExact` | pkg/tokenizer/tokenizer.go:214-360 | It gives exactly the trimmed text if and only if that has no meta symbol and no full-width form. |
| `TokenizerRules.ByteNameIs` | pkg/tokenizer/tokenizer.go:267-273 | The name of a byte piece is its two upper-case hexadecimal digits behind <0x, and no other string names that byte. |
| `TokenizerRules.FallbackIs` | pkg/tokenizer/tokenizer.go:263-276 | The token of a rune that no piece matches is the byte piece that names it, if the rune is below 0x100 and there is one, or else the unknown token. |
| `TokenizerRules.StepIs` | pkg/tokenizer/tokenizer.go:239-284 | A segmentation steps over every piece of kind 1, 4 or 6 and at most 64 runes, for its score; over a single rune for nothing where no such piece matches; and over nothing else. |
| `TokenizerRules.FirstOfEqualsIsKept` | pkg/tokenizer/tokenizer.go:253-258 | Of several last steps that make the best score of a position, the one that starts first is kept. |
| `TokenizerRules.PreparedIs` | pkg/tokenizer/tokenizer.go:214-223 | The search runs on the text with a meta symbol in front and for each space, with ASCII for full-width forms, and all other characters unchanged. |
| `TokenizerRules.SurfacesJoin` | pkg/tokenizer/tokenizer.go:305-323 | Decoding adds nothing for control and byte pieces and for ids outside the vocabulary, and the text of every other piece. |
| `ModelFile.VarintReadsBack` | pkg/tokenizer/tokenizer.go:388-401 | Any number below 2^64 written as a base-128 varint is read back, and the position stands behind it. |
| `ModelFile.TagReadsBack` | pkg/tokenizer/tokenizer.go:371-379 | Field number and wire type of a written tag are read back. |
| `ModelFile.KnownEncodings` | pkg/tokenizer/tokenizer.go:371-446 | The encoder read back here writes the bytes that the description of the format gives: 08 96 01 for 150 in field 1, 12 07 and its seven bytes for a string in field 2, and a float least significant byte first. |
| `ModelFile.EntryReadsBack` | pkg/tokenizer/tokenizer.go:371-460 | Any field, a varint, a byte string or a float of either width, is read back exactly, and skipped exactly. |
| `ModelFile.TruncatedBytesFail` | pkg/tokenizer/tokenizer.go:403-417 | A byte string that announces more than is left is not read, and the position stands behind its length, unless it cannot hold the announced end. |
| `ModelFile.PieceReadsBack` | pkg/tokenizer/tokenizer.go:116-147 | A piece message is read back whatever the order of its fields, however often they occur, and whatever fields stand between them: the last text, score and kind, and for absent ones no text, a score of 0, and kind 1. |
| `ModelFile.DefaultKindIsNormal` | pkg/tokenizer/tokenizer.go:116-147 | A message of a text and a score alone is a piece of kind 1. |
| `ModelFile.TrainerReadsBack` | pkg/tokenizer/tokenizer.go:149-181 | A trainer specification leaves the last of the ids in fields 9, 7, 8 and 17, and 0 or -1 for absent ones. |
| `ModelFile.OtherIsSkipped` | pkg/tokenizer/tokenizer.go:57-89 | A top-level field with any other number is stepped over as a whole. |
| `ModelFile.ItemIsParsed` | pkg/tokenizer/tokenizer.go:57-89 | One item moves the parser over exactly its bytes, and the model then describes one item more. |
| `ModelFile.ItemsAreParsed` | pkg/tokenizer/tokenizer.go:57-89 | The same for a list of items behind any items already parsed. |
| `ModelFile.ParserUndoesEncoder` | pkg/tokenizer/tokenizer.go:57-89 | Parsing an encoded list of messages and other fields gives all pieces back in order, with defaults for what they leave out, and the special ids of the trainer specifications. |
| `ModelFile.IndexPointsToPieces` | pkg/tokenizer/tokenizer.go:90-112 | Every entry of the text index points to the last piece with that text, and every piece has an entry. |
| `ModelFile.UnknownID` | pkg/tokenizer/tokenizer.go:90-112 | For every unknown id the trainer may have set: when it stays, and otherwise which unknown piece it becomes: the first, unless that is piece 0 and another follows, when it is the second. |
| `ModelFile.ControlIDs` | pkg/tokenizer/tokenizer.go:90-112 | The other special ids: the last control piece (kind 3) that is <s>, </s> or <pad>, or else what the trainer specification says. |
| `ModelFile.SliceReader.ReadVarintRaw` | pkg/tokenizer/tokenizer.go:388-401 | The reading loop and the position it leaves are those of the specification. |
| `ModelFile.SliceReader.ReadTag` | pkg/tokenizer/tokenizer.go:371-379 | The same for tags. |
| `ModelFile.SliceReader.ReadVarint` | pkg/tokenizer/tokenizer.go:381-386 | The same for typed varints, including the wrong wire type. |
| `ModelFile.SliceReader.ReadBytes` | pkg/tokenizer/tokenizer.go:403-417 | The same for byte strings, including lengths that run out of the data. |
| `ModelFile.SliceReader.ReadFloat32` | pkg/tokenizer/tokenizer.go:427-446 | The same for floats of either width. |
| `ModelFile.SliceReader.SkipField` | pkg/tokenizer/tokenizer.go:448-460 | The same for skipped fields. |
| `ModelFile.TryParsePiece` | pkg/tokenizer/tokenizer.go:116-147 | The field loop of a piece computes the piece specification, failures included. |
| `ModelFile.ParseTrainerSpec` | pkg/tokenizer/tokenizer.go:149-181 | The field loop of the trainer specification sets exactly the special ids it names. |
| `ModelFile.TakeMessage` | pkg/tokenizer/tokenizer.go:63-88 | A field-1, 4 or 5 message adds its piece; one without a text is taken for the trainer specification. |
| `ModelFile.ParseModel` | pkg/tokenizer/tokenizer.go:49-114 | The whole parser: the collected pieces, indexed, or the failure. |
| `Permutations.Counterpart` | pkg/sampler/sampler.go:195-220 | An element of one arrangement has a counterpart in the other, and without both the rests are arrangements again. |
| `Permutations.Swap` | pkg/sampler/sampler.go:195-220 | Exchanging two array elements keeps the multiset of its elements. |
| `Sampler.Argmax` | pkg/sampler/sampler.go:15-25 | The result is the first position of the greatest value. |
| `Sampler.ArgmaxWithRepetitionPenalty` | pkg/sampler/sampler.go:27-46 | For every penalty the result is the first position of the greatest penalized value that is a number. With a penalty above 1 a listed token is chosen only if it would be without one; with 1 it is the plain choice; with 0 it is the first listed positive score, if there is one. |
| `Sampler.ApplyRepetitionPenalty` | pkg/sampler/sampler.go:48-67 | Every listed id in range is penalized once, however often it is listed: a positive score is the penalty times the new one, another is multiplied by it, and for a penalty of 0 they become infinite and 0; nothing else changes. |
| `Sampler.PenaltyLowers` | pkg/sampler/sampler.go:27-67 | A penalty above 1 takes every listed score other than 0 strictly down and keeps listed scores in their order. |
| `Sampler.PenaltyOnlyDemotes` | pkg/sampler/sampler.go:27-46 | Hence a listed token that is chosen under it would also be chosen without it. |
| `Sampler.UnpenalizedIsArgmax` | pkg/sampler/sampler.go:28-46 | A penalty of 1, or an empty list, leaves the plain choice. |
| `Sampler.ZeroPenaltyTakesListed` | pkg/sampler/sampler.go:32-46 | A penalty of 0 makes the first listed positive score the choice. |
| `Sampler.PenaltyPathsAgree` | pkg/sampler/sampler.go:27-67 | The set path and the list path, agreeing on the ids in range, choose the same score whenever the penalty is not 0; with a penalty of 0, if and only if the choice of the list path is no listed 0, or all scores are. |
| `Sampler.CountsOfPermutation` | pkg/sampler/sampler.go:195-212 | How many scores exceed a value does not depend on their order. |
| `Sampler.TopSortedGivesKth` | pkg/sampler/sampler.go:195-212 | After k selection rounds, position k holds the k-th largest score. |
| `Sampler.BringGreatest` | pkg/sampler/sampler.go:195-212 | One selection round extends the sorted front by the greatest of the rest and keeps the multiset. |
| `Sampler.NthLargest` | pkg/sampler/sampler.go:195-212 | The partial selection sort returns the true k-th largest score; minus infinity for a k out of range. |
| `Nucleus.Softmax` | pkg/sampler/sampler.go:69-89 | Each result is the share of its exponential, taken relative to the greatest score; nothing for no scores, and no numbers if and only if all scores are minus infinity. |
| `Nucleus.SoftmaxIsDistribution` | pkg/sampler/sampler.go:69-89 | The results add up to 1; exactly the finite scores have a positive one. |
| `Nucleus.SoftmaxIsShare` | pkg/sampler/sampler.go:69-89 | Taking the greatest score off first changes nothing: each probability is the share of its exponential in the sum of the exponentials. |
| `Nucleus.ProbOfPermutation` | pkg/sampler/sampler.go:69-89 | Reordering the scores reorders their probabilities. |
| `Nucleus.SortDescIndexed` | pkg/sampler/sampler.go:214-220 | The in-place insertion sort yields a descending rearrangement. |
| `Nucleus.RemoveMask` | pkg/sampler/sampler.go:126-139 | The shifted mask removes exactly the later positions before which the mass exceeds topP. |
| `Nucleus.MaskOut` | pkg/sampler/sampler.go:140-144 | Minus infinity is written exactly at the original places of the removed positions. |
| `Nucleus.KeepNucleus` | pkg/sampler/sampler.go:115-145 | The kept scores are the shortest non-empty prefix of the descending order whose mass exceeds topP. |
| `Nucleus.FirstAbove` | pkg/sampler/sampler.go:126-133 | Where the cumulative mass first exceeds a limit. |
| `Nucleus.FrontIsHeaviest` | pkg/sampler/sampler.go:115-145 | No choice of positions has more mass than the front of the order of the same size. |
| `Nucleus.NucleusIsSmallest` | pkg/sampler/sampler.go:115-145 | Any set of positions whose mass exceeds topP has at least as many members as the nucleus. |
| `Nucleus.KeepTopK` | pkg/sampler/sampler.go:107-114 | Scores below the k-th largest become minus infinity, others stay. |
| `Nucleus.TopKKeepsK` | pkg/sampler/sampler.go:107-114 | At least k scores survive, fewer than k exceed the threshold, and only ties make it more than k. |
| `Nucleus.Draw` | pkg/sampler/sampler.go:147-155 | For a positive draw the loop returns the position whose cumulative interval holds it. |
| `Nucleus.ReachesUnique` | pkg/sampler/sampler.go:147-155 | Each draw belongs to one position only. |
| `Nucleus.NucleusHasFinite` | pkg/sampler/sampler.go:115-145 | The nucleus is never empty. |
| `Nucleus.SampleFromScores` | pkg/sampler/sampler.go:96-156 | The filters applied in turn and a position drawn from what they left, the final fallback not being reached; the position survived both filters if and only if the draw was positive or position 0 survived them. |
| `PoolSafety.RunInv` | pkg/ttsruntime/pool.go:145-472 | The invariant holds after every run of interleaved steps of callers, dispatchers, cleanup and Close. |
| `PoolSafety.StepInv` | pkg/ttsruntime/pool.go:166-472 | Every single step keeps it. |
| `PoolSafety.OneOwner` | pkg/ttsruntime/pool.go:166-321 | A core is locked if and only if exactly one thread or delivery buffer has its lock. |
| `PoolSafety.ExclusiveUse` | pkg/ttsruntime/pool.go:145-163 | No two callers ever use the same core at the same time. |
| `PoolSafety.ActiveCount` | pkg/ttsruntime/pool.go:166-245 | The active count of a core is 0 or 1, and 1 only while the core is locked. |
| `PoolSafety.CleanupSparesBusy` | pkg/ttsruntime/pool.go:339-362 | When cleanup closes a core its count is 0, however long ago it was looked at; before Close no counted core is closed. |
| `PoolSafety.DeliveriesSucceed` | pkg/ttsruntime/pool.go:279-308 | Handing a core to a waiting request never blocks and never sends on a closed channel. |
| `PoolSafety.HandingCanDeliver` | pkg/ttsruntime/pool.go:279-308 | While a dispatcher holds a core for the queue head, that request's buffer is empty and its channel open. |
| `PoolSafety.QueueOrder` | pkg/ttsruntime/pool.go:248-308 | Requests are served in queue order, each at most once; one that was overtaken had left the queue. |
| `PoolSafety.ReserveCores` | pkg/ttsruntime/pool.go:215-245 | There are never more reserve cores than allowed, and no two ever had the same name. |
| `PoolSafety.WithoutKeepsOrder` | pkg/ttsruntime/pool.go:264-274 | Taking a cancelled request out keeps the order of the others. |
| `PoolSafety.CleanCloseInv` | pkg/ttsruntime/pool.go:339-362 | Closing an idle core in the middle of a sweep keeps the invariant. |
| `PoolSafety.HandingInv` | pkg/ttsruntime/pool.go:279-308 | Delivering a core, with its lock, keeps it. |
| `PoolSafety.CancellingInv` | pkg/ttsruntime/pool.go:261-275 | Leaving the queue on cancellation keeps it, also when a core is on its way. |
| `PoolSafety.CloseStartInv` | pkg/ttsruntime/pool.go:365-384 | Closing the cores keeps it. |
| `PoolSafety.CloseQueueInv` | pkg/ttsruntime/pool.go:385-394 | Closing the channels of the queue keeps it. |
| `PoolSafety.ReadScanInv` | pkg/ttsruntime/pool.go:449-472 | Choosing a core for reading, without a lock of its own, keeps it. |
| `PoolClosing.ClosedPoolExactly` | pkg/ttsruntime/pool.go:215-245 | Some run makes a pool that is closed by then lock a further core if and only if reserve cores are allowed. |
| `PoolClosing.ClosedPoolLocksNothing` | pkg/ttsruntime/pool.go:166-245 | A closed pool without reserve cores locks no core that is not locked already, whatever step is taken. |
| `PoolClosing.ClosedPoolStillStartsCores` | pkg/ttsruntime/pool.go:215-245 | The run from the start: Close, and then a caller that is given a new reserve core, open and counted. |
| `PoolClosing.ReachesClosed` | pkg/ttsruntime/pool.go:365-394 | That run reaches a closed pool with a caller about to start a reserve core. |
| `PoolClosing.NilCoreMeansClosed` | pkg/ttsruntime/pool.go:261-263 | A caller is given a nil core without an error only once the pool is closed; then a waiting caller is, if and only if its request is neither in the queue nor was taken from it. |
| `PoolProgress.StepGoes` | pkg/ttsruntime/pool.go:166-394 | Whatever one step does, the maximum stays, a closed pool stays closed, only Close closes channels, and only three kinds of step can lock a core nobody has locked. |
| `PoolSweep.SweepExactly` | pkg/ttsruntime/pool.go:339-362 | Over a whole sweep at a time now, whatever other threads do meanwhile: the reserve list ends as, in order, exactly the cores that had a positive count, or were last active at most 60000 ms before now, when they were looked at; and exactly the others of it were closed. |
| `PoolAlone.AcquiresByPriority` | pkg/ttsruntime/pool.go:145-276 | From any state of any run in which nobody has the pool lock, an acquisition that is not interrupted takes the first idle work core, or waits for it while a release still has it locked; otherwise the first reserve core that is idle and not locked; otherwise it starts one, numbered next, below the limit; otherwise a caller is queued last, and the dispatcher stops. |
| `PoolAlone.Releases` | pkg/ttsruntime/pool.go:311-321 | A release leaves the core idle, unlocked and used just now, and starts a dispatcher. |
| `PoolAlone.HandsToFirst` | pkg/ttsruntime/pool.go:299-308 | A core the dispatcher has goes to the request that has waited longest, whose caller then holds it; if the context of that request is done, the dispatcher may give the core back instead. |
| `PoolAlone.ReadsLeast` | pkg/ttsruntime/pool.go:449-472 | Acquiring for reading goes for the least used work core, the first of several. |
| `PoolAlone.FailedStart` | pkg/ttsruntime/pool.go:223-231 | A worker that fails to start leaves nothing but a number that is not given out again. |
| `PoolAlone.Closes` | pkg/ttsruntime/pool.go:365-394 | Close, when nobody has a lock, closes every listed core and the channel of every queued request, and no other; the lists and the queue are empty afterwards, and the pool is not ready. |
| `PoolTickets.StepTickets` | pkg/ttsruntime/pool.go:247-394 | Every step of every thread, every new thread and every cancelled context keeps the invariant of the waiting requests. |
| `PoolTickets.RunTickets` | pkg/ttsruntime/pool.go:261-306 | After every run, each waiting thread has a request of its own that is in the queue, answered with a core or a done context, or closed; closed ones are neither in the queue nor were taken from it. |
| `PoolTickets.NilCoreExactly` | pkg/ttsruntime/pool.go:261-263 | Over every run: the next step of a waiting caller gives it a nil core if and only if its request is neither queued nor was taken from the queue, which are exactly the requests with closed channels. |
| `PoolTickets.WaitingGoesOnExactly` | pkg/ttsruntime/pool.go:261-275 | Over every run: a waiting caller can go on if and only if its request has left the queue or its context is done; no request leaves the queue without a core unless its context is done. |
| `PoolNil.NilCoreIsReached` | pkg/ttsruntime/pool.go:247-276 | For every number of work cores and of reserve cores allowed, a run from the start gives a waiting caller a nil core. |
| `PoolNil.TooLateIsReached` | pkg/ttsruntime/pool.go:247-276 | Without reserve cores, a run brings a caller into the queue of a closed pool in which nobody has a core. |
| `PoolNil.LateCallerWaits` | pkg/ttsruntime/pool.go:247-276 | Such a caller cannot take a step in any continuation in which its own context is not cancelled. |
| `PoolDeadlock.DeadlockIsReached` | pkg/ttsruntime/pool.go:278-284 | Every pool with a work core can reach a state in which Close has the pool lock and wants the queue lock while a dispatcher has the queue lock and wants the pool lock. |
| `PoolDeadlock.DeadlockIsForGood` | pkg/ttsruntime/pool.go:365-394 | From there neither ever takes a step, and both locks stay taken, in every continuation. |
| `PoolDeadlock.CloseFinishesExactly` | pkg/ttsruntime/pool.go:387-393 | Over every run: Close, once it has the pool lock, finishes in some continuation if and only if nobody has the queue lock, or the dispatcher that has it will leave the queue empty without the pool lock. |
| `PoolLeak.ComesBackExactly` | pkg/ttsruntime/pool.go:261-275 | A delivered core leaves its channel in some continuation if and only if a caller still waits for it. |
| `PoolLeak.StrandedIsLocked` | pkg/ttsruntime/pool.go:299-305 | Over every run a core in a channel is locked and counted. |
| `PoolLeak.LeakIsReached` | pkg/ttsruntime/pool.go:261-275 | Every pool with a work core can lose it to the channel of a caller that took the branch of its context. |
| `PoolWakeup.OverlookedIsReached` | pkg/ttsruntime/pool.go:247-257 | For every number of work cores and of reserve cores allowed, a run ends with a caller in the queue of the open pool, all work cores idle and open, and no thread able to take a step. |
| `Chunker.SentencesKeepAll` | pkg/ttsruntime/ttsruntime.go:1301-1333 | Splitting at punctuation loses white space only, and all parts are non-empty and trimmed. |
| `Chunker.SplitTextByPunctuation` | pkg/ttsruntime/ttsruntime.go:1301-1333 | The rune loop computes those sentences. |
| `Chunker.SearchIsLongest` | pkg/ttsruntime/ttsruntime.go:247-262 | The binary search finds the longest fitting prefix, for a counter that is monotone on prefixes. |
| `Chunker.LongestPrefix` | pkg/ttsruntime/ttsruntime.go:247-262 | The same from the bounds the program starts with. |
| `Chunker.SearchPrefix` | pkg/ttsruntime/ttsruntime.go:247-262 | The searching loop returns the result of that search. |
| `Chunker.ScanBoundary` | pkg/ttsruntime/ttsruntime.go:264-275 | The backward scan finds the last preferred boundary of the last 24 symbols. |
| `Chunker.CutPiece` | pkg/ttsruntime/ttsruntime.go:247-286 | One round cuts off the trimmed piece up to that boundary, or the whole prefix. |
| `Chunker.BudgetKeepsAll` | pkg/ttsruntime/ttsruntime.go:228-288 | The budget splitter loses white space only. |
| `Chunker.SearchFits` | pkg/ttsruntime/ttsruntime.go:247-262 | Whatever the counter, the search returns a fitting prefix if the first symbol alone fits. |
| `Chunker.BudgetHolds` | pkg/ttsruntime/ttsruntime.go:228-288 | Every piece is within the budget if each symbol alone fits and no round steps back to a boundary behind a prefix that is over the budget. |
| `Chunker.BudgetExactly` | pkg/ttsruntime/ttsruntime.go:228-288 | All texts are split within the budget if and only if each symbol alone fits and no text over the budget makes the cut step back to a boundary behind a prefix that is over it. |
| `Chunker.StepBackSuffices` | pkg/ttsruntime/ttsruntime.go:264-286 | It is enough that stepping back to a boundary among the last 24 symbols of a fitting prefix leaves a fitting prefix, as for every monotone counter. |
| `Chunker.SplitTextByTokenBudget` | pkg/ttsruntime/ttsruntime.go:228-288 | The splitting loop ends and returns those pieces. |
| `Chunker.ClauseCarries` | pkg/ttsruntime/ttsruntime.go:179-195 | A clause, split further if it is too long, keeps its symbols and meets the budget. |
| `Chunker.SentenceCarries` | pkg/ttsruntime/ttsruntime.go:165-196 | The same for a sentence. |
| `Chunker.SentencesCarry` | pkg/ttsruntime/ttsruntime.go:164-196 | The same for all sentences. |
| `Chunker.SliceClause` | pkg/ttsruntime/ttsruntime.go:179-195 | The inner loop computes the slices of a clause. |
| `Chunker.SliceSentence` | pkg/ttsruntime/ttsruntime.go:165-196 | The loop computes the slices of a sentence. |
| `Chunker.JoinKeepsAll` | pkg/ttsruntime/ttsruntime.go:1335-1346 | Joining two parts keeps their symbols and yields a trimmed text. |
| `Chunker.PackCarries` | pkg/ttsruntime/ttsruntime.go:197-224 | Greedy packing keeps all symbols in order. |
| `Chunker.PackFits` | pkg/ttsruntime/ttsruntime.go:197-224 | Packed chunks meet the budget if joining two texts that fit together gives a text that fits. |
| `Chunker.PackExactly` | pkg/ttsruntime/ttsruntime.go:197-224 | All lists of fitting slices are packed within the budget if and only if joining does that. |
| `Chunker.PackSlices` | pkg/ttsruntime/ttsruntime.go:197-224 | The packing loop computes those chunks. |
| `Chunker.PrepareKeeps` | pkg/ttsruntime/ttsruntime.go:1266-1299 | Preparation keeps all symbols up to capitalizing the first and adding one final mark. |
| `Chunker.ChunksLoseNothing` | pkg/ttsruntime/ttsruntime.go:145-226 | When there are several chunks, together they have exactly the symbols of the prepared text, in order. |
| `Chunker.ChunksFit` | pkg/ttsruntime/ttsruntime.go:145-226 | Each of several chunks is within the budget, for a counter that meets the two exact conditions. |
| `Chunker.SplitVoiceCloneText` | pkg/ttsruntime/ttsruntime.go:145-226 | The program computes those chunks. |
| `SplitRules.SentencesAre` | pkg/ttsruntime/ttsruntime.go:1301-1333 | Each sentence ends with the first mark and all closing marks behind it, blanks up to the next sentence belong to none, and what is left has no mark; the parts are these texts, trimmed, without the blank ones. |
| `SplitRules.CutIsBehindBoundary` | pkg/ttsruntime/ttsruntime.go:262-286 | The cut is behind the last ASCII mark or space among the last 24 symbols of the best prefix, or behind the prefix where there is none or only white space before it. |
| `SplitRules.PiecesAreCut` | pkg/ttsruntime/ttsruntime.go:228-288 | Each piece is the whole rest, if that is within the budget, or is cut off it like that, until nothing is left. |
| `SplitRules.SlicesAreWhole` | pkg/ttsruntime/ttsruntime.go:160-196 | A sentence within the budget is one slice; of one over it every clause within it is; and every other slice is a piece of a clause over it. |
| `SplitRules.PacksGreedily` | pkg/ttsruntime/ttsruntime.go:197-224 | Each chunk joins slices in a row, each of which fits behind the ones before it, and the slice behind the chunk does not. |
| `SplitRules.CollapseIsSingle` | pkg/ttsruntime/ttsruntime.go:1273-1275 | Replacing double spaces until there are none makes every run of spaces one space. |
| `SplitRules.WordCountIsWords` | pkg/ttsruntime/ttsruntime.go:1294-1294 | Words are counted by the places where they start. |
| `SplitRules.PrepareIs` | pkg/ttsruntime/ttsruntime.go:1266-1299 | Preparation makes line breaks spaces and runs of spaces one; Chinese, Japanese and Korean text without a final mark gets a full stop; other text gets a capital, a full stop behind a letter or digit, and eight spaces in front of fewer than five words. |
| `SplitRules.ChunksAre` | pkg/ttsruntime/ttsruntime.go:145-226 | A blank text has no chunks; a text that is not split is one chunk, trimmed but not prepared; and the chunks of any other are the packed slices of the sentences of the prepared text, for a budget of at least 1. |
| `TokenBudget.TokensAreBounded` | pkg/ttsruntime/ttsruntime.go:116-118 | A text has at most one token more than it has runes. |
| `TokenBudget.TokenBudgetExactly` | pkg/ttsruntime/ttsruntime.go:228-288 | With the tokenizer as the counter and a budget of two or more, all texts are split within the budget if and only if no text over it makes the cut overstep. |
| `TokenBudget.BudgetCanFail` | pkg/ttsruntime/ttsruntime.go:145-226 | A vocabulary with one long piece and a text with the clause "ab cdef,": the cut steps back from a prefix of two tokens to "ab", which becomes a chunk of three, and the budget of two is broken. |
| `TokenBudget.TokensOf` | pkg/ttsruntime/ttsruntime.go:116-118 | How many tokens that vocabulary makes of a text, by the optimality of the segmentation. |
| `ChunkBudget.PieceFitsExactly` | pkg/ttsruntime/ttsruntime.go:242-286 | The piece that one round cuts off is over the budget if and only if the round steps back behind a prefix that is over it, or found none within it and the first symbol alone is over it. |
| `ChunkBudget.PiecesFitExactly` | pkg/ttsruntime/ttsruntime.go:228-288 | All pieces of a clause are within the budget if and only if no round of cutting it fails like that. |
| `ChunkBudget.SlicesFitExactly` | pkg/ttsruntime/ttsruntime.go:160-196 | All slices of the sentences are within the budget if and only if no round of cutting fails. |
| `ChunkBudget.PackFitsExactly` | pkg/ttsruntime/ttsruntime.go:197-224 | The packed chunks are within the budget if and only if the slices and all texts made by joining are. |
| `ChunkBudget.ChunksFitExactly` | pkg/ttsruntime/ttsruntime.go:145-226 | For every text that is split into several chunks and every counter: the chunks are within the budget if and only if no round of cutting fails and no join is over the budget. |
| `CleanPieces.NoStepOver` | pkg/tokenizer/tokenizer.go:248-260 | If no piece has white space, a meta symbol or a mark inside, no step of a segmentation goes over a place where the splitter may cut. |
| `CleanPieces.BestBehind` | pkg/tokenizer/tokenizer.go:239-284 | Behind such a place the dynamic program does what it does for that part alone, with the score so far added. |
| `CleanPieces.FrontCountsLess` | pkg/ttsruntime/ttsruntime.go:116-118 | Under such a vocabulary with an unknown token, a text that ends at a mark, or where white space follows, has no more tokens than the longer text. |
| `CleanPieces.CleanKeepsBudget` | pkg/ttsruntime/ttsruntime.go:228-288 | Under such a vocabulary with an unknown token, every clause is cut within every budget of at least two tokens. |
| `CleanPieces.JoinCountsAdd` | pkg/ttsruntime/ttsruntime.go:1335-1346 | Under it, two texts joined by a space have exactly as many tokens as the two together. |
| `CleanPieces.CleanChunksFit` | pkg/ttsruntime/ttsruntime.go:145-226 | Under it, every text without Chinese, Japanese or Korean characters that is split is split within every budget of at least two. |
| `CleanPieces.RuneByRuneIsLawful` | pkg/ttsruntime/ttsruntime.go:145-226 | A vocabulary of one-rune pieces with an unknown token meets all conditions of the budget theorems, for all texts. |
| `JoinOverrun.JoinCanFail` | pkg/ttsruntime/ttsruntime.go:197-224 | Such a vocabulary and a Chinese text: slices of three and two tokens are joined without a space to a chunk of six, over the budget of five. |
| `Vocabularies.LookupIsTheSame` | pkg/tokenizer/tokenizer.go:248-252 | A string of runes is found in the vocabulary of the search if and only if its UTF-8 bytes are found in the parsed index, with the same id. |
| `Vocabularies.ParsedIsValid` | pkg/tokenizer/tokenizer.go:83-112 | The vocabulary of every parsed model is one that the theorems about the tokenizer are for. |
| `Framing.BigEndianReadsBack` | pkg/worker/frame.go:17-41 | The four bytes of a 32-bit length are its digits to the base 256, the most significant first, and are read back. |
| `Framing.FrameReadsBack` | pkg/worker/frame.go:17-111 | A frame is read back, with the following bytes untouched, if and only if its header has at most 10485760 bytes and announces, at four bytes for each sample of each channel, the length of its attachment. |
| `Framing.ReadOneLengths` | pkg/worker/frame.go:44-111 | A successful read consumes exactly the lengths the frame gives. |
| `Framing.FailedReadLeaves` | pkg/worker/frame.go:44-111 | A failed read leaves what is behind the length of a header that is too long, or behind a header that cannot be decoded; a header or attachment that never becomes complete is used up. |
| `Framing.FramesReadBack` | pkg/worker/frame.go:17-116 | Frames written back to back are read back as the same messages in order, whatever unreadable bytes follow. |
| `Framing.FirstPartIsUnreadable` | pkg/worker/frame.go:44-111 | No proper first part of a readable frame is readable. |
| `Framing.AudioMessageWellFramed` | cmd/worker_main.go:298-369 | An audio frame announces its attachment if and only if the channels divide the samples; otherwise it announces less, by less than a sample of all channels. |
| `Framing.Connection.WriteResponse` | pkg/worker/frame.go:17-41 | Length, header and attachment together append exactly one frame. |
| `Framing.Connection.ReadResponse` | pkg/worker/frame.go:44-111 | Reading takes one message off the front of the stream; a failed read leaves exactly what it did not consume. |
| `Writers.StepInv` | cmd/worker_main.go:61-68 | Every step of every call keeps the invariant: taking and giving back the lock, the three writes, and their failures. |
| `Writers.RunInv` | cmd/worker_main.go:61-68 | So it holds after every interleaving. |
| `Writers.OneWriterAtATime` | cmd/worker_main.go:61-68 | No two calls are ever between taking and giving back the write lock. |
| `Writers.StreamIsFrames` | cmd/worker_main.go:61-68 | In every reachable state the bytes written are the complete frames in the order they were completed, and a proper first part of one more frame that some call has begun. |
| `Writers.WriterOrderIsKept` | cmd/worker_main.go:61-68 | The complete frames of each goroutine are the first ones of its calls in order, and all of them once its calls have ended and no write has failed. |
| `Writers.WritersInterleaveWholeFrames` | cmd/worker_main.go:61-68 | In every reachable state the reader gets exactly the complete frames, whole and in order. |
| `Writers.PieceContinues` | pkg/worker/frame.go:17-41 | Each write continues the frame, and the last one completes it. |
| `Writers.TriedFinish` | cmd/worker_main.go:61-68 | The call a goroutine is in the middle of is its last, so its frame comes last when it is done. |
| `DemuxSafety.StepInv` | pkg/ttsruntime/worker_process.go:228-419 | Every step of callers, reader, request loop and tasks keeps the invariant. |
| `DemuxSafety.RunInv` | pkg/ttsruntime/worker_process.go:228-419 | So it holds after every run. |
| `DemuxSafety.NumbersAreFresh` | pkg/ttsruntime/worker_process.go:254-263 | A new request gets a number no request ever had; no request has the number 0 of cancellation replies. |
| `DemuxSafety.NoMisrouting` | pkg/ttsruntime/worker_process.go:228-251 | Whatever a caller gets carries its own number and was written by the worker, or is the connection error, of number 0. |
| `DemuxSafety.OutputIsPrefix` | pkg/ttsruntime/worker_process.go:300-356 | What a caller got and what waits for it is a gapless first part of what was written for it, closed by at most one connection error. |
| `DemuxSafety.EndsOnce` | cmd/worker_main.go:298-369 | Every message of a reply but the last is a chunk: nothing follows an end. |
| `DemuxSafety.OneReply` | pkg/ttsruntime/worker_process.go:254-297 | A plain call is sent at most one message, the one the reader holds included. |
| `DemuxSafety.PlainNeverBlocks` | pkg/ttsruntime/worker_process.go:228-251 | The reader and `closePending` never block on a plain call's channel. |
| `DemuxSafety.ClosedGetsNothing` | pkg/ttsruntime/worker_process.go:322-329 | Nothing is ever sent on a channel that a failed stream request closed. |
| `DemuxSafety.ReadInv` | pkg/ttsruntime/worker_process.go:228-251 | Looking a response up and forgetting an answered request keeps the invariant. |
| `DemuxSafety.FailPendingInv` | pkg/ttsruntime/worker_process.go:412-419 | Failing a pending request keeps it. |
| `DemuxSafety.TakeRequestInv` | cmd/worker_main.go:134-214 | Taking a request, answering it or starting its task keeps it. |
| `DemuxSafety.TakeCancelInv` | cmd/worker_main.go:38-59 | Cancelling a registered task, or not finding it, keeps it. |
| `DemuxSafety.EmitInv` | cmd/worker_main.go:216-369 | A task writing its chunks and its end keeps it. |
| `DemuxSafety.ShapeGrows` | cmd/worker_main.go:216-369 | A reply is one answer, or chunks and then one end. |
| `DemuxDelivery.NothingIsDropped` | pkg/ttsruntime/worker_process.go:228-356 | Over every run, until a call ends: what it has received, what waits in its channel and what the reader holds for it is everything that was read for it, and it is pending exactly until the last response was read; only a lost connection puts an error of number 0 behind that. |
| `DemuxCallers.CallsReturn` | pkg/ttsruntime/worker_process.go:254-356 | Over every run: calls are numbered one by one from 1; a stream returns exactly with its first message that is an end, an error or a cancellation, also after it was cancelled, and its channel is closed exactly if its request did not go out; a plain call returns with at most one message; the reader finds room exactly below 64 messages of a stream, or below one. |
| `DemuxCallers.GoesOnExactly` | pkg/ttsruntime/worker_process.go:254-356 | Over every run, exactly when a call can register, write its request or fail to, receive, give up, ask for its cancellation, and leave: only while a lost connection is being closed must it wait for the map of pending calls. |
| `DemuxCallers.ClosingGoesOn` | pkg/ttsruntime/worker_process.go:412-419 | While a lost connection is being closed, the entry of every pending call can be failed unless its channel is full, and the reader stops exactly when none is left. |
| `DemuxCallers.ToldOnce` | pkg/ttsruntime/worker_process.go:280-351 | In every run the worker is told of the cancellation of a call at most once. |
| `DemuxCancel.AcknowledgedExactly` | cmd/worker_main.go:191-205 | Over every run: a cancellation is acknowledged if and only if the task has started, has not ended and is not cancelled yet; otherwise it is answered with an error and changes nothing. |
| `DemuxCancel.CancelledTaskStops` | cmd/worker_main.go:216-369 | In every continuation, all that the worker writes for a cancelled task is the response it was writing at that moment and then at most its last word: the notice of the cancellation, or for a stream also its end or an error. |
| `DemuxCancel.StopsShortly` | cmd/worker_main.go:216-369 | So at most one chunk and two responses follow an acknowledged cancellation, and a result only if it was being written. |
| `DemuxCancel.CancelledWhenAsked` | cmd/worker_main.go:38-59 | In every run a task is cancelled only if its caller has asked for that. |
| `DemuxCancel.CancelledCanEnd` | cmd/worker_main.go:216-369 | A cancelled task can end at once, with the notice. |
| `DemuxCancel.TaskGoesOnExactly` | cmd/worker_main.go:216-369 | Over every run, what a task may do next: a stream writes chunks until it is cancelled and may always end or fail; a synthesis writes its result or error, or, once cancelled, the notice of that, if anything. |
| `DemuxCancel.LoopGoesOnExactly` | cmd/worker_main.go:134-214 | Over every run: the loop answers what it has taken before it takes the next request, answers quick requests itself, and starts a new task for the others. |
| `DemuxOvertaken.OvertakenIsReached` | cmd/worker_main.go:188-205 | A run in which the request loop takes a cancellation before the task that was started for its request has registered itself: the caller has asked, and the task runs without being cancelled. |
| `DemuxOvertaken.NeverCancelled` | cmd/worker_main.go:188-205 | In every continuation of such a run the task is not cancelled any more. |
| `Recency.RecentIsSet` | pkg/ttsruntime/preload.go:172-182 | The recency order lists every touched key exactly once. |
| `Recency.RecentIsByLastTouch` | pkg/ttsruntime/preload.go:172-182 | It is the order of last touches. |
| `Recency.TouchHeld` | pkg/ttsruntime/preload.go:172-182 | Touching one of the last n keys moves it to their end. |
| `Recency.TouchOther` | pkg/ttsruntime/preload.go:147-169 | Touching another key adds it and, when all n places are taken, drops the key touched longest ago. |
| `Recency.WithoutAt` | pkg/ttsruntime/preload.go:172-182 | Deleting the one occurrence found by the loop deletes the key. |
| `PreloadCache.Cache.constructor` | pkg/ttsruntime/preload.go:41-57 | A new cache is empty; a size that is not positive becomes 2. |
| `PreloadCache.Cache.RemoveFromOrder` | pkg/ttsruntime/preload.go:172-182 | The search-and-delete loop takes the key out of the order. |
| `PreloadCache.Cache.UpdateAccessOrder` | pkg/ttsruntime/preload.go:172-182 | The key ends up last, the others keep their order. |
| `PreloadCache.Cache.AddToMemoryCache` | pkg/ttsruntime/preload.go:147-169 | A new entry evicts exactly the front of the order, and only when memory is full; that voice was touched before all others held, in the whole history. |
| `PreloadCache.Cache.Get` | pkg/ttsruntime/preload.go:60-91 | A lookup succeeds if and only if memory knows the voice or its file can be decoded and is of version 4; it gives what is known, is a touch, and leaves the other voices in memory as they are; a useless file is deleted. |
| `PreloadCache.Cache.Preload` | pkg/ttsruntime/preload.go:94-144 | Afterwards the voice is known, by its old codes if it had any; finding it changes nothing, not even the order; otherwise memory and, as far as saving works, disk hold the new data under version 4. |
| `PreloadCache.Cache.Keep` | pkg/ttsruntime/preload.go:120-143 | A freshly encoded voice enters memory, whether or not saving it works, and the other voices in memory stay as they are. |
| `PreloadCache.Cache.Remove` | pkg/ttsruntime/preload.go:241-263 | The voice is gone from memory, order and disk; the others stay in the order of their last touches in the whole history, which is kept. |
| `PreloadCache.Cache.Clear` | pkg/ttsruntime/preload.go:222-238 | Everything is gone but the history. |
| `PreloadCache.HistoryTouched` | pkg/ttsruntime/preload.go:172-182 | Touching a voice makes it the last of the order of last touches. |
| `PreloadCache.DiskFirstIsTheSame` | pkg/ttsruntime/preload.go:60-91 | Because both agree, asking the disk before memory would give the same codes. |
| `PreloadCache.EvictsLeastRecent` | pkg/ttsruntime/preload.go:147-169 | The entry at the front of the order was touched before every other one held. |
| `PreloadCache.ForgottenIsOlder` | pkg/ttsruntime/preload.go:147-169 | A touched voice that is not held was touched before each of the `max` voices that are. |
| `WavFormat.Le32ReadsBack` | pkg/audio/audio.go:194-207 | Four little-endian bytes give the number back modulo 2^32. |
| `WavFormat.Round` | pkg/audio/audio.go:211-219 | The result is within one half of the argument, and a half is rounded away from zero. |
| `WavFormat.SampleBound` | pkg/audio/audio.go:211-219 | Writing and reading a sample moves it by at most 1.5/32768 from its clipped value. |
| `WavFormat.QuantizeIsMonotone` | pkg/audio/audio.go:211-219 | Louder samples never get smaller values. |
| `WavFormat.PcmBytesAt` | pkg/audio/audio.go:211-219 | Sample i stands at bytes 2i and 2i + 1. |
| `WavFormat.FormatReadsBack` | pkg/audio/audio.go:319-341 | The written format chunk is read as 16-bit PCM with the same channels and rate. |
| `WavFormat.ExtrasAreSkipped` | pkg/audio/audio.go:345-348 | Any list of unknown chunks, even or odd and padded, is stepped over as if it were not there. |
| `WavFormat.FileReadsBack` | pkg/audio/audio.go:293-376 | A written file with unknown chunks before and after the format chunk gives its channels, rate and quantized samples. |
| `WavFormat.FileIsPcmFile` | pkg/audio/audio.go:185-222 | Every field of a written file stands at its byte offset: the chunk names, the sizes, the format, and the samples. |
| `WavFormat.AnyFormatReadsBack` | pkg/audio/audio.go:316-376 | Whatever the format chunk says, the samples are taken as 32-bit floats if and only if it announces them, itself or as an extensible format, and as 16-bit numbers otherwise, with its channels and rate; missing bytes at the end count as zero. |
| `WavFormat.OtherFilesFail` | pkg/audio/audio.go:300-306 | A file that is too short or does not start as RIFF and WAVE is refused. |
| `WavFormat.NoFormatReadsBack` | pkg/audio/audio.go:316-376 | Without a format chunk the samples are 16-bit numbers of no channels. |
| `Wav.PutSamples` | pkg/audio/audio.go:211-219 | The samples follow the header two bytes each; it panics if and only if the buffer has no room for all of them. |
| `Wav.PutHeader` | pkg/audio/audio.go:193-207 | The 44 header bytes are the RIFF, format and data headers in order. |
| `Wav.EncodeWAV` | pkg/audio/audio.go:185-222 | It panics if and only if the waveform is long enough for the channels but not divisible by them; otherwise the buffer is the PCM file of the waveform, field by field, with one channel if it is shorter than the channels. |
| `Wav.EncodedReadsBack` | pkg/audio/audio.go:185-376 | Reading back what was encoded gives the same channels, rate and length, and each sample within 1.5/32768 of its clipped value. |
| `Wav.File.Read` | pkg/audio/audio.go:310-322 | A read takes what is left, zero-fills the rest, and fails only at the end of the file. |
| `Wav.ReadRIFFWAV` | pkg/audio/audio.go:293-376 | The chunk loop over the file position computes the specified outcome, short reads and panics included. |
| `Wav.PutChannel` | pkg/audio/audio.go:423-426 | One channel is written to its places and to no others. |
| `Wav.MergeAudioChannels` | pkg/audio/audio.go:407-428 | Sample i of channel c stands at i·channels + c, up to the shortest channel. |
| `Wav.InterleavingIsInjective` | pkg/audio/audio.go:407-428 | The interleaved samples determine the channels. |
| `Silence.WindowIsVoiced` | pkg/audio/audio.go:468-483 | The nested sample loops decide whether the mean square of a window exceeds the threshold. |
| `Silence.LastVoicedWindow` | pkg/audio/audio.go:466-483 | The backward search finds the last voiced window. |
| `Silence.VoicedByLevel` | pkg/audio/audio.go:468-483 | A window of samples that are all within 0.01 is not voiced, one of samples that are all beyond it is, over all channels of all its frames. |
| `Silence.LoneSampleIsVoiced` | pkg/audio/audio.go:468-483 | A single sample in silence makes its window voiced if and only if its square exceeds 0.0001 for every sample of the window. |
| `Silence.WindowSize` | pkg/audio/audio.go:460-463 | A window has a fiftieth of a second, rounded down, and at least one frame. |
| `Silence.PaddingIsTime` | pkg/audio/audio.go:488-488 | The padding is the greatest number of whole windows within 0.15 seconds. |
| `Silence.KeptIsPadded` | pkg/audio/audio.go:488-492 | What stays behind the last voiced window are whole windows of at most 0.15 seconds, and less than a window less unless the waveform ends first. |
| `Silence.CutPoint` | pkg/audio/audio.go:488-496 | The cut falls behind window and padding, at most at the end; it is worth it if and only if two fifths of the frames remain. |
| `Silence.VoicedStays` | pkg/audio/audio.go:488-497 | The frames kept hold every voiced window. |
| `Silence.TrimTrailingSilence` | pkg/audio/audio.go:451-498 | The waveform is cut behind the padding, of at most 0.15 seconds, of its last voiced window if and only if there is one, the waveform has a quarter of a second, and two fifths of the frames stay; otherwise it is returned as it is. |
| `Generation.LengthIsDecided` | pkg/ortruntime/runtime.go:1036-1158 | What the models would answer decides the number of frames and whether the run is cancelled. |
| `Generation.StopsExactly` | pkg/ortruntime/runtime.go:1046-1122 | A step ends the loop without a frame exactly if there is no model, the model says so, or in fixed mode the probability is above 0.8 after one of the first 20 steps had it between 0 and 0.8. |
| `Generation.FrozenExactly` | pkg/ortruntime/runtime.go:1131-1154 | A run is frozen exactly if the last frame and the seven before it are equal. |
| `Generation.FrozenOnlyAtEnd` | pkg/ortruntime/runtime.go:1131-1154 | Eight equal consecutive frames occur only at the very end. |
| `Generation.ColumnHolds` | pkg/ortruntime/runtime.go:1124-1129 | A token is in a codebook's column if and only if some frame gave it to that codebook. |
| `Generation.AddTokens` | pkg/ortruntime/runtime.go:1124-1129 | The loop adds the frame's token to the list and set of each codebook it has one for. |
| `Generation.TakeFrame` | pkg/ortruntime/runtime.go:1124-1129 | After a frame, each set holds exactly its column, and each list is the column (twice over for the local decoder, which records its tokens itself). |
| `Batching.Watch` | pkg/ortruntime/runtime.go:1113-1122 | The valley flag and the rebound test stop exactly at a rebound. |
| `Batching.AllSame` | pkg/ortruntime/runtime.go:1131-1154 | The comparison loop detects exactly eight equal frames. |
| `Batching.Generate` | pkg/ortruntime/runtime.go:1036-1158 | The loop returns the frames up to its first reason to stop, at most maxNewFrames, none of them with p > 0.8 after an early drop in fixed mode; the callback gets all of them but one that completes a frozen run. |
| `Batching.BudgetGrowsWithLead` | pkg/ttsruntime/ttsruntime.go:1241-1260 | The decode budget never shrinks when more audio is ahead of the listener. |
| `Batching.BudgetByLead` | pkg/ttsruntime/ttsruntime.go:1241-1260 | The budget is 4, 8, 16 or 32 frames exactly if the audio given out exceeds what the listener has heard by less than 0.1, 0.3, 0.8 seconds, or by more; and 4 before any audio. |
| `Batching.BatchSize` | pkg/ttsruntime/ttsruntime.go:1127-1141 | A batch is everything when forced, and otherwise a whole budget as soon as that much waits, and nothing before; so an unforced call leaves fewer than 32 of at most 32 frames. |
| `Batching.LastFramesAreTail` | pkg/ttsruntime/ttsruntime.go:1178-1183 | The context kept for the next text chunk is the last eight frames, or all if there are fewer. |
| `Batching.Batcher.DecodePending` | pkg/ttsruntime/ttsruntime.go:1127-1172 | The frames of one batch leave the front of the waiting ones, and counters and chunks change accordingly. |
| `Batching.Batcher.OnFrame` | pkg/ttsruntime/ttsruntime.go:1174-1185 | The frame is decoded or waits; nothing is lost, and fewer than 32 wait afterwards. |
| `Batching.Batcher.Finish` | pkg/ttsruntime/ttsruntime.go:1197-1197 | At the end the batches are exactly the frames received. |
| `Batching.StreamTextChunk` | pkg/ttsruntime/ttsruntime.go:1120-1198 | For an uncancelled text chunk the batches given to the codec concatenate to exactly the frames the callback got. |
| `Batching.DecodeFramesStreaming` | pkg/ttsruntime/ttsruntime.go:1357-1402 | The frames are cut into batches of eight without loss, and each channel is the concatenation of what the batches gave for it. |
| `Batching.ChannelsHaveTotalLength` | pkg/ttsruntime/ttsruntime.go:1357-1402 | If the codec gives all channels as long as it says, each channel ends up with the total length. |

## Left out

- Nucleus.SampleFromScores: requires scores when 0 < topP < 1, because the source indexes an empty mask otherwise and panics.
- Resample.TorchSincResample: requires positive rates and channels; the source divides by them.
- Writers.WritersInterleaveWholeFrames: assumes that no header is encoded as nothing, as no JSON text is; a write that fails has written fewer bytes than it was given, and a connection on which a write has failed stays broken.
- Vocabularies.ParsedIsValid: UTF-8 encoding and decoding are parameters that round-trip on strings of runes.
- Chunker.SplitTextByTokenBudget: works on one symbol per element; that its scan for a boundary finds ASCII marks only is modelled, but not that lengths are counted in bytes, so that a cut can fall inside a multi-byte UTF-8 sequence.
- ModelFile.ParseModel: a position that overflows a 64-bit integer ends the run with its own outcome `Wrapped`; what the source then reads is not modelled.
- Wav.EncodeWAV: requires at least one channel; with none the source divides by zero, and negative counts are not modelled.
- Wav.File.Read: one read returns all bytes that are left, so the operating system's limit of a single read (about 1 GB) is not modelled.
- Silence.TrimTrailingSilence: requires a sample rate that is not negative; samples behind the last whole window are not looked at, as in the source.
- Generation.LengthIsDecided: frames have at most one token for each codebook, as all producers guarantee.
- PreloadCache.Cache.Get: files are keyed by voice, so two names that clean to the same path, other processes and failing deletions are not modelled, nor are the time stamps.
- PcgGenerator.MixEntropy: the loop for entropy beyond the pool is absent, since a 64-bit seed never has more than two words (`PcgSeed.EntropyOfSeed`).
- Pool liveness under fair scheduling: that a request is served in the end. What can go wrong is proved (`PoolDeadlock`, `PoolLeak`, `PoolWakeup`, `PoolNil.LateCallerWaits`).
- CleanPieces.CleanChunksFit: speaks of texts without Chinese, Japanese or Korean characters, since with them it can fail (`JoinOverrun.JoinCanFail`); a text that is not split into several chunks is returned as it is, whatever its size.
- The preference that read-write locks give to waiting writers, which only rules runs out.
- Liveness of the worker connection: a stream whose consumer stops reading can block the reader and `closePending`; timeouts are steps that may happen at any time.
- Rounding of floating-point arithmetic, NaN other than that of a penalty of 0, and the values of exp, sin and cos; the 32-bit variant of the random float, which may round up to 1.
- Integer overflow of lengths and sizes beyond the words written out.
- Network sessions, tensors and their destruction, device selection and process launching: foreign calls.
- `pkg/normalizer` (chained regular expressions and an unseen library), web handlers, downloads, ffmpeg, proxy, logging, configuration: plumbing without a claim of its own.
- `SampleAudioToken`, `SampleAssistantTextToken` and `estimateInterChunkPauseSeconds`: they only pick among the operations above.
- `pkg/stream`, `pkg/config`, `pkg/onnxconfig`, `MakeSilence`, `Resample` by linear interpolation: would add easy members only.
