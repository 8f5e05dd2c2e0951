# Decoding in whisper.cpp and parakeet.cpp, modelled in Dafny

The two speech recognisers in this repository surround a neural network with hand-written
algorithms: a key-value cache shared by several decoders, a grammar engine, a Fourier transform,
attention written as reshapes of flat buffers, a voice activity detector with a time map, dynamic
time warping, and the automata that turn tokens into timed text. This project models those
algorithms and proves what they are for. The network itself is an arbitrary function, sampling is
an arbitrary choice, and arithmetic on samples and probabilities is exact.

| files | part of the system |
|---|---|
| KvCache, KvRefinement | the shared cache and the mask over it: every sequence is shown what it would see in a cache of its own |
| Sampling, DecodeLoop, DecodeSession | the greedy and beam-search loops over that cache: who wins, how the cache follows, and what holds of every step of every run |
| Utf8, Grammar, Completion, GrammarLanguage, GrammarEngine, GrammarStream, GrammarFilter, GrammarPending | the streaming UTF-8 decoder, the look-ahead on incomplete characters, the pushdown engine as derivatives of a context-free language, streams of tokens that cut characters, and the token filter |
| Fft | the in-place recursive transform against the sum that defines it, and its scratch space |
| Tensors, LocalAttention, RelativeShift, FullAttention | strided views of buffers; chunked local attention and the relative shift against index formulas, and the agreement of the two ways of computing attention |
| VadScan, VadCoverage, VadEnds, VadPost, TimeMap, TimeLookup | speech segments from probabilities, which speech they miss and where they end, merging and padding, the copied audio, and the map back to original times |
| Dtw | dynamic time warping and its backtrace |
| Timestamps, TokenRules, Segments, Transcription | the token automaton and the sequences it accepts, emission and wrapping of text, and the loop over the audio that puts them together |
| Tdt | the token-and-duration decoder of parakeet.cpp and the refinement of its times |
| Arithmetic | facts about products and remainders |

Code that updates state in place is modelled by classes and methods with the same fields, branches
and loops. Each method is proved against a specification function or predicate, and the lemmas state
what that specification guarantees.

Some results are about where the code does *not* do what one might expect:

- `Dtw.BackIsCheapestIff`, `Dtw.TieSpoils`: the three-way choice takes the third direction when the
  first two tie below it, so the alignment can be more expensive than necessary. It is a cheapest one
  if and only if some cheapest staircase avoids such ties.
- `Utf8.SplitAgrees`, `Utf8.SplitDiffers`, `Utf8.SplitRecovers`, `Utf8.SplitKeeps`: continuation bytes are
  checked only when a sequence is resumed from an earlier call, an invalid piece is forgotten by the next
  call, and what a valid one contained has been handed over already. So invalid text can read differently
  when it is split; the condition covers every pair of pieces and every state. On well-formed text the
  split never matters.
- `GrammarFilter.FilterAgreesWithEngine`, `GrammarFilter.FilterMissesZero`,
  `GrammarFilter.FilterRejectsSpecial`: the filter reads a token's code points up to a zero, the engine
  reads all of them but skips texts that begin with `[_`. The condition under which rejecting a token
  means that accepting it leaves no stack is exact; the bytes C0 80 decode to a zero.
- `Grammar.PartialMeaning`, `Grammar.NegatedClassRefuses`, `Grammar.BackwardsRangeMisread`: for a negated
  character class the look-ahead on pending bytes rejects a token if any of its completions is excluded,
  not only if all are; and a range written backwards, which lists no character, counts as listed if both
  its ends are completions. The statement is exact for every class and every number of pending bytes.
- `Completion.LookAheadExactly`, `Completion.LookAheadCountsMore`: the code points whose encoding starts
  with the pending bytes are exactly those that the look-ahead counts and whose encoding has the announced
  length. It misses none, but counts overlong and out-of-range sequences.
- `VadCoverage.LostExactly`, `VadCoverage.DroppedIsShort`: a frame of speech is in no raw segment if and
  only if an overlong segment without a silence was cut at it, or its stretch was dropped. A dropped
  stretch is too short; it is the first speech or follows a rest, and silence or the end follows it.
- `VadEnds.RawEndsRight`, `VadEnds.PauseForgotten`: no segment runs on over a silence that lasts for the
  minimum, unless an overlong segment was split during that silence, which is then counted afresh.
- `TimeMap.BufferSufficesIff`, `TimeMap.BufferTooSmall`, `TimeMap.DetectedBufferNegative`: rounding to
  centiseconds can put the start of a segment past the last sample. The buffer for the filtered audio
  is too small exactly when such starts exceed the end by more than the silences that are not written:
  nine probabilities make 2080 samples go to a buffer of 2019, and four make its size negative.
- `TimeLookup.OneTableIff`, `TimeLookup.ClampedSortMatters`, `TimeLookup.EmptySegmentSortMatters`: the
  unstable sort leads to one table if and only if table points of equal processed time are equal. It
  fails when a segment is clamped to the end of the audio, and when one has no length. Segments that are
  detected with windows of at least 160 samples always have a length.
- `RelativeShift.FirstViewInBounds`: the intermediate view of the relative shift stays inside its buffer
  for a single frame only; the part of it that is read always does.
- `LocalAttention.BandOfZerosGet`: the inverse stride trick already leaves zeros outside the window, so
  the multiplication with the local mask changes nothing.
- `Segments.InsideIff`, `Segments.StartsBeforeWindow`, `Segments.StartsAfterItsEnd`: text before the first
  timestamp of a window starts at the timestamp that is most likely beside the window's first token. The
  segments of an unmasked window lie inside it if and only if that one does, and is not after the first
  timestamp; with timestamps masked the segment starts long before the window.

## Model

| member | source | states |
|---|---|---|
| `KvCache.Cache.constructor` | app/src/main/cpp/whisper.cpp/src/whisper.cpp:692-717 | a new cache is well labelled, empty, with its head at 0 |
| `KvCache.Cache.SearchSlot` | app/src/main/cpp/whisper.cpp/src/whisper.cpp:1019-1057 | the search from any head up to the size terminates, succeeds if and only if some run of n free cells exists anywhere, and leaves the head at such a run |
| `KvCache.Cache.FindSlot` | app/src/main/cpp/whisper.cpp/src/whisper.cpp:1019-1068 | success if and only if a free run exists; then exactly that run is written, with the batch's positions and labels, and the cells in use reach no further than by the size of the batch; on failure nothing changes |
| `KvCache.NoSlotMeansCrowded` | app/src/main/cpp/whisper.cpp/src/whisper.cpp:1019-1068 | if no run of n free cells exists, every block of n cells holds an occupied one, so at least that many cells are occupied |
| `KvCache.SlotExists` | app/src/main/cpp/whisper.cpp/src/whisper.cpp:1019-1068 | a run of n free cells exists whenever fewer than size / n cells are occupied |
| `KvCache.PlaceKeepsLabelling` | app/src/main/cpp/whisper.cpp/src/whisper.cpp:1060-1068 | placing a batch in a free run keeps the invariant that a cell is free exactly when it has no label |
| `KvCache.Cache.CellMax` | app/src/main/cpp/whisper.cpp/src/whisper.cpp:1071-1079 | one past the last cell in use, and at least 1 |
| `KvCache.Cache.Clear` | app/src/main/cpp/whisper.cpp/src/whisper.cpp:1081-1089 | every cell free, every key and value row zero, head at 0 |
| `KvCache.Cache.SeqRm` | app/src/main/cpp/whisper.cpp/src/whisper.cpp:1091-1119 | a label is removed exactly in the position range, cells left without a label become free, and the head moves to the first cell freed by the call, if any |
| `KvCache.Cache.SeqCp` | app/src/main/cpp/whisper.cpp/src/whisper.cpp:1121-1137 | a label is added to exactly the cells of the source in the position range; the invariant is kept and the head reset |
| `KvCache.FlatMaskRow` | app/src/main/cpp/whisper.cpp/src/whisper.cpp:2908-2940 | row j of the flat mask is the mask of token j |
| `KvCache.Cache.BuildMask` | app/src/main/cpp/whisper.cpp/src/whisper.cpp:2908-2940 | the in-place filling of the buffer leaves exactly the mask that hides cells of other sequences and of later positions |
| `KvRefinement.MaskShowsHistory` | app/src/main/cpp/whisper.cpp/src/whisper.cpp:2908-2940 | in any shared cache in which a sequence has each position once, the mask shows a token the rows of its own history before it, as a multiset, and nothing else |
| `KvRefinement.PlaceExtendsLayout` | app/src/main/cpp/whisper.cpp/src/whisper.cpp:1060-1068 | placing a batch extends, for each sequence it feeds, the layout of positions 0 to n-1, each once |
| `KvRefinement.RowRefines` | app/src/main/cpp/whisper.cpp/src/whisper.cpp:2868-2940 | a row evaluated under the mask is the row of a decoder with a cache of its own |
| `KvRefinement.ForwardRefines` | app/src/main/cpp/whisper.cpp/src/whisper.cpp:2868-2940 | evaluating a whole batch in the shared cache gives every sequence it feeds the rows of its own isolated history, whatever else is in the cache or the batch |
| `DecodeLoop.DecodedSpells` | app/src/main/cpp/whisper.cpp/src/whisper.cpp:2868-2940 | after an evaluation each sequence spells its old history followed by exactly the tokens fed to it |
| `DecodeLoop.OwnCellShown` | app/src/main/cpp/whisper.cpp/src/whisper.cpp:2908-2940 | the mask shows each token its own cell, and that cell is among those evaluated over |
| `DecodeLoop.LastRow` | app/src/main/cpp/whisper.cpp/src/whisper.cpp:2942-2955 | the logits row of a sequence's last token is the one an isolated decoder computes |
| `DecodeLoop.RemoveSpells` | app/src/main/cpp/whisper.cpp/src/whisper.cpp:1091-1119 | removing a sequence from a position on leaves exactly what it spells before that position |
| `DecodeLoop.CopySpells` | app/src/main/cpp/whisper.cpp/src/whisper.cpp:1121-1137 | copying a range of positions to a sequence that spells the same before it makes that one spell the same up to the end of the range |
| `DecodeLoop.OthersSpell` | app/src/main/cpp/whisper.cpp/src/whisper.cpp:1091-1137 | neither changes what any other sequence spells |
| `DecodeLoop.DecodeWithState` | app/src/main/cpp/whisper.cpp/src/whisper.cpp:3945-3957 | decoding tokens from a position on replaces what sequence 0 spells from there on by these tokens, and reads the isolated row of the last; without a slot only the old end is gone |
| `DecodeLoop.DecodeInternal` | app/src/main/cpp/whisper.cpp/src/whisper.cpp:2868-2940 | succeeds exactly when a slot exists; then the batch is placed, masked over the first n cells and evaluated; on failure cells and rows are unchanged |
| `DecodeLoop.ReparentIsSimultaneous` | app/src/main/cpp/whisper.cpp/src/whisper.cpp:7298-7339 | copy to temporary ids, remove, copy back, remove equals one simultaneous assignment on every cell: live decoders take their source's cells, finished ones keep theirs, no temporary label survives, and a cell becomes free exactly when no label remains |
| `DecodeLoop.ReparentSpells` | app/src/main/cpp/whisper.cpp/src/whisper.cpp:7298-7339 | after the beam step a live decoder spells what its source spelled, a finished one what it spelled before |
| `DecodeLoop.ReparentOnlyDecoders` | app/src/main/cpp/whisper.cpp/src/whisper.cpp:7298-7339 | after the beam step only decoder ids label cells |
| `DecodeLoop.StepBatchFeeds` | app/src/main/cpp/whisper.cpp/src/whisper.cpp:7450-7482 | the batch of a step feeds every live decoder its last token at the next position and a finished decoder nothing |
| `DecodeLoop.StepSpells` | app/src/main/cpp/whisper.cpp/src/whisper.cpp:7450-7482 | after a step every live decoder spells its history with the new token and reads its isolated row |
| `DecodeLoop.PromptSpells` | app/src/main/cpp/whisper.cpp/src/whisper.cpp:7163-7170 | after the prompt is evaluated in a cleared cache, sequence 0 spells it |
| `DecodeLoop.FeedIsReady` | app/src/main/cpp/whisper.cpp/src/whisper.cpp:7450-7482 | feeding the sampled tokens re-establishes the loop invariant for the next step: each live decoder has cached the prompt and its tokens and is about to sample from its isolated row |
| `DecodeLoop.ReparentShared` | app/src/main/cpp/whisper.cpp/src/whisper.cpp:7298-7339 | re-parenting keeps the invariant that the cache holds each decoder's history and nothing else |
| `DecodeLoop.ChosenIsSampled` | app/src/main/cpp/whisper.cpp/src/whisper.cpp:7277-7326 | after the winners are chosen, each live decoder's tokens are those its new source had cached, and one more |
| `Sampling.DrawsExactly` | app/src/main/cpp/whisper.cpp/src/whisper.cpp:7210-7284 | a candidate is in the list if and only if it is one of the draws of a live decoder: its tokens and one more |
| `Sampling.NextCursor` | app/src/main/cpp/whisper.cpp/src/whisper.cpp:7304-7311 | the cursor moves past the candidate taken and, after the first step, past all that follow it with the same tokens |
| `Sampling.WinnersInOrder` | app/src/main/cpp/whisper.cpp/src/whisper.cpp:7296-7326 | the best candidate goes to the first live decoder, and each live decoder after it gets the best one left whose tokens are not those just taken, starting over when none is left |
| `DecodeLoop.WinnersAreChosen` | app/src/main/cpp/whisper.cpp/src/whisper.cpp:7210-7326 | under both strategies every live decoder continues a live decoder by one of its draws, and a finished one keeps its tokens |
| `DecodeSession.Session.EvaluatePrompt` | app/src/main/cpp/whisper.cpp/src/whisper.cpp:7163-7170 | the prompt fits exactly when it is no longer than the cache; its last row is the isolated one |
| `DecodeSession.Session.ShareFirst` | app/src/main/cpp/whisper.cpp/src/whisper.cpp:7187-7197 | after the copies every decoder spells the prompt, and no cell that was free is taken |
| `DecodeSession.Session.Start` | app/src/main/cpp/whisper.cpp/src/whisper.cpp:7078-7203 | the loop starts, exactly if the prompt fits, with every decoder ready, with no tokens of its own |
| `DecodeSession.Session.SampleGreedy` | app/src/main/cpp/whisper.cpp/src/whisper.cpp:7216-7256 | every live decoder gets exactly its draw, finished ones nothing |
| `DecodeSession.Session.Candidates` | app/src/main/cpp/whisper.cpp/src/whisper.cpp:7244-7284 | the candidates are exactly the draws of the live decoders, in order |
| `DecodeSession.Session.BeamCopy` | app/src/main/cpp/whisper.cpp/src/whisper.cpp:7298-7326 | each live decoder gets the candidate whose turn it is, and the cells of that candidate's decoder are copied to its temporary id |
| `DecodeSession.Session.BeamMove` | app/src/main/cpp/whisper.cpp/src/whisper.cpp:7328-7338 | the cells under temporary ids replace those of the live decoders |
| `DecodeSession.Session.SampleBeam` | app/src/main/cpp/whisper.cpp/src/whisper.cpp:7277-7339 | a beam step gives the decoders the winners of the sorted candidates, and the cache is re-parented to the winners' decoders |
| `DecodeSession.Session.Sample` | app/src/main/cpp/whisper.cpp/src/whisper.cpp:7210-7339 | after sampling, each live decoder has cached all its tokens but the last, under both strategies |
| `DecodeSession.Session.Feed` | app/src/main/cpp/whisper.cpp/src/whisper.cpp:7450-7482 | fails exactly when no slot for the live decoders exists, and then changes nothing; otherwise every history is extended and the invariant holds for the next step |
| `DecodeSession.Session.UpdateFinished` | app/src/main/cpp/whisper.cpp/src/whisper.cpp:7345-7427 | each decoder is finished afterwards exactly if it was before or its own stopping decision says so, and the invariant survives |
| `DecodeSession.Session.Step` | app/src/main/cpp/whisper.cpp/src/whisper.cpp:7205-7528 | a step ends with all decoders finished, with no slot, or with the next sound snapshot; and each outcome only when it must |
| `DecodeSession.Session.Run` | app/src/main/cpp/whisper.cpp/src/whisper.cpp:7163-7529 | every run of either loop is a trace that starts from the prompt, in which each snapshot follows from the one before by sampling, stopping and feeding, and in which before every step each live decoder's history is in the cache and it samples from the row an isolated decoder computes; it succeeds if and only if all steps were made or all decoders finished |
| `DecodeSession.FinishedExactly` | app/src/main/cpp/whisper.cpp/src/whisper.cpp:7205-7528 | before step k of a run a decoder is finished if and only if one of the decisions about it in earlier steps was to stop |
| `DecodeSession.StopsExactly` | app/src/main/cpp/whisper.cpp/src/whisper.cpp:7205-7528 | before every step some decoder has had no such decision; and a run that ends before its last step ends well if and only if every decoder has had one |
| `DecodeSession.LogExactly` | app/src/main/cpp/whisper.cpp/src/whisper.cpp:7210-7528 | the record of a run holds exactly the rows that live decoders are given, step by step |
| `DecodeSession.ReadsAreIsolated` | app/src/main/cpp/whisper.cpp/src/whisper.cpp:7210-7528 | every row read in a run is the row of an isolated decoder for the prompt and the tokens that decoder had at that step |
| `DecodeSession.FailsOnlyWhenFull` | app/src/main/cpp/whisper.cpp/src/whisper.cpp:7163-7529 | a run that fails for want of a slot has too few cells for the prompt and a token per decoder and step made |
| `DecodeSession.LargeCacheNeverFails` | app/src/main/cpp/whisper.cpp/src/whisper.cpp:7163-7529 | no step of a run fails if the cache holds the prompt and a token per decoder and step |
| `DecodeSession.AllocatedNeverFails` | app/src/main/cpp/whisper.cpp/src/whisper.cpp:7115-7205 | so none fails in the cache that the source allocates, for any number of decoders up to that for which it was allocated and any prompt of up to half the text context and four tokens |
| `Utf8.DecodeUtf8` | app/src/main/cpp/whisper.cpp/src/whisper.cpp:5499-5553 | the byte loop computes the meaning of the piece from the state carried over, ends its output with a zero, and reports an invalid piece by an empty output and -1 |
| `Utf8.ScanAppend` | app/src/main/cpp/whisper.cpp/src/whisper.cpp:5499-5553 | reading two pieces is reading the first and then the second from the state it leaves |
| `Utf8.SplitAgrees` | app/src/main/cpp/whisper.cpp/src/whisper.cpp:5499-5553 | two calls hand over the code points and state of one call on the whole if and only if: the first piece is invalid and the second empty or invalid too; or only the whole is invalid and the first piece completed no code point; or the whole is valid and the second piece starts with the continuation bytes still missing |
| `Utf8.SplitDiffers` | app/src/main/cpp/whisper.cpp/src/whisper.cpp:5499-5553 | C3 41 is one code point in one piece, and invalid in two |
| `Utf8.SplitRecovers` | app/src/main/cpp/whisper.cpp/src/whisper.cpp:5499-5553 | 80 41 is invalid in one piece, but its second piece is read |
| `Utf8.SplitKeeps` | app/src/main/cpp/whisper.cpp/src/whisper.cpp:5499-5553 | 41 80 is invalid in one piece, but its first piece has been read |
| `Utf8.ScanEncodedAll` | app/src/main/cpp/whisper.cpp/src/whisper.cpp:5499-5553 | the encoding of section 3 of RFC 3629 scans back to its code points, with every continuation byte checked |
| `Utf8.DecodeEncoded` | app/src/main/cpp/whisper.cpp/src/whisper.cpp:5499-5553 | decoding inverts that encoding, in one call and in two, cut at any byte |
| `Grammar.MatchChar` | app/src/main/cpp/whisper.cpp/src/whisper.cpp:5566-5587 | true exactly when the class accepts the character, with the position after the class |
| `Grammar.MatchPartialChar` | app/src/main/cpp/whisper.cpp/src/whisper.cpp:5592-5638 | the look-ahead on pending bytes computes the overlap test of the class with the range of completions |
| `Grammar.PartialMeaning` | app/src/main/cpp/whisper.cpp/src/whisper.cpp:5592-5638 | an ordinary class passes exactly when some completion of the bytes is accepted, a negated one exactly when all are, but for ranges written backwards inside the completions, which count as listed |
| `Completion.CompletesExactly` | app/src/main/cpp/whisper.cpp/src/whisper.cpp:5499-5638 | the completions are exactly the code points that the decoder, resumed with the missing number of continuation bytes, can produce, except those below U+0800 after E0 and below U+10000 after F0 |
| `Completion.EncodingIsUnique` | app/src/main/cpp/whisper.cpp/src/whisper.cpp:5499-5553 | a complete sequence no longer than necessary is the encoding of its value |
| `Completion.LookAheadExactly` | app/src/main/cpp/whisper.cpp/src/whisper.cpp:5499-5638 | after an incomplete sequence the code points whose encoding starts with its bytes are exactly those the look-ahead counts whose encoding has the length announced by the first byte; none after C0 and C1 |
| `Completion.LookAheadCountsMore` | app/src/main/cpp/whisper.cpp/src/whisper.cpp:5592-5638 | bytes with which no encoding starts, but for which it counts a completion: overlong after E0 9F, out of range after F5 |
| `Grammar.NegatedClassRefuses` | app/src/main/cpp/whisper.cpp/src/whisper.cpp:5592-5638 | a negated class that refuses bytes with a completion it accepts |
| `Grammar.BackwardsRangeMisread` | app/src/main/cpp/whisper.cpp/src/whisper.cpp:5592-5638 | a class that accepts no character but passes pending bytes |
| `GrammarLanguage.ReplaceLighter` | app/src/main/cpp/whisper.cpp/src/whisper.cpp:5642-5693 | under a ranking that excludes left recursion, also through nullable prefixes, replacing the reference on top by any alternate lowers a measure: the expansion terminates |
| `GrammarLanguage.Advance` | app/src/main/cpp/whisper.cpp/src/whisper.cpp:5642-5693 | the expansion of a stack is non-empty and leaves only empty stacks and stacks with a character class on top |
| `GrammarLanguage.AdvanceComplete` | app/src/main/cpp/whisper.cpp/src/whisper.cpp:5642-5693 | every parse of a stack is a parse of one of its expansions, with the same text |
| `GrammarLanguage.AdvanceSound` | app/src/main/cpp/whisper.cpp/src/whisper.cpp:5642-5693 | every parse of an expansion is a parse of the stack, with the same text |
| `GrammarLanguage.AdvanceReads` | app/src/main/cpp/whisper.cpp/src/whisper.cpp:5642-5693 | expansion preserves the language of a stack |
| `GrammarLanguage.PopReads` | app/src/main/cpp/whisper.cpp/src/whisper.cpp:5699-5725 | a stack with a class on top reads a character and a word exactly if the class accepts the character and what is below reads the word |
| `GrammarLanguage.SettledStops` | app/src/main/cpp/whisper.cpp/src/whisper.cpp:5699-5725 | an expanded stack reads the empty word exactly if it is empty |
| `GrammarLanguage.AcceptIsDerivative` | app/src/main/cpp/whisper.cpp/src/whisper.cpp:5699-5725 | accepting a character is the derivative: the new stacks read exactly the words that the old ones read after that character |
| `GrammarLanguage.AcceptAllReads` | app/src/main/cpp/whisper.cpp/src/whisper.cpp:5699-5725 | accepting a word is the derivative by the word |
| `GrammarLanguage.InitReads` | app/src/main/cpp/whisper.cpp/src/whisper.cpp:5799-5837 | the initial stacks read exactly the words of the start rule's alternates |
| `GrammarLanguage.EngineDecidesLanguage` | app/src/main/cpp/whisper.cpp/src/whisper.cpp:5699-5837 | after starting and reading any string of code points, some stack is empty if and only if the string is in the context-free language of the start rule |
| `GrammarEngine.AdvanceStack` | app/src/main/cpp/whisper.cpp/src/whisper.cpp:5642-5693 | the recursive procedure appends exactly the expansions, in order, and terminates |
| `GrammarEngine.ScanAlternate` | app/src/main/cpp/whisper.cpp/src/whisper.cpp:5670-5673 | the scan stops at the end of the alternate |
| `GrammarEngine.AcceptStack` | app/src/main/cpp/whisper.cpp/src/whisper.cpp:5706-5722 | one stack contributes its successors, or none if its class rejects the character |
| `GrammarEngine.AcceptChar` | app/src/main/cpp/whisper.cpp/src/whisper.cpp:5699-5725 | the loop over stacks computes the derivative |
| `GrammarEngine.Init` | app/src/main/cpp/whisper.cpp/src/whisper.cpp:5799-5837 | the loop over the alternates of the start rule builds the initial stacks |
| `GrammarEngine.AcceptToken` | app/src/main/cpp/whisper.cpp/src/whisper.cpp:5883-5905 | a token advances the engine over the code points it completes and keeps the pending bytes; an invalid one leaves the stacks alone, and a special token, or any without rules or stacks, changes nothing |
| `GrammarStream.TokensRead` | app/src/main/cpp/whisper.cpp/src/whisper.cpp:5883-5905 | accepting tokens one after the other, special ones apart, reads exactly the code points of their joined text, and while a stack is left, the bytes of an incomplete character at its end are pending |
| `GrammarStream.TokensSpell` | app/src/main/cpp/whisper.cpp/src/whisper.cpp:5499-5905 | if the joined text is the encoding of some code points, these are read and nothing is pending, wherever the tokens cut the text |
| `GrammarStream.TokensDecideLanguage` | app/src/main/cpp/whisper.cpp/src/whisper.cpp:5499-5905 | so after a start and any tokens an empty stack is left if and only if what they spell is in the language of the start rule |
| `GrammarEngine.AcceptString` | app/src/main/cpp/whisper.cpp/src/whisper.cpp:5894-5897 | the fold of the single step over a string |
| `GrammarFilter.SurvivesComplete` | app/src/main/cpp/whisper.cpp/src/whisper.cpp:5732-5797 | without pending bytes a token survives exactly when reading it leaves a stack |
| `GrammarFilter.SurvivesStep` | app/src/main/cpp/whisper.cpp/src/whisper.cpp:5732-5781 | a token with text survives on a stack exactly if the class on top accepts its first code point and the rest survives on the expansions of what is left |
| `GrammarFilter.SurvivesAppend` | app/src/main/cpp/whisper.cpp/src/whisper.cpp:5783-5797 | a token survives on several stacks exactly if it survives on one of them |
| `GrammarFilter.CombineRejects` | app/src/main/cpp/whisper.cpp/src/whisper.cpp:5732-5781 | what a stack rejects at once and what the stacks after it reject make up exactly its rejects, with multiplicities |
| `GrammarFilter.RejectedByMore` | app/src/main/cpp/whisper.cpp/src/whisper.cpp:5783-5797 | filtering the rejects of some stacks by one more stack gives the rejects of all of them |
| `GrammarFilter.RejectForStack` | app/src/main/cpp/whisper.cpp/src/whisper.cpp:5732-5781 | the rejects of one stack are exactly the candidates on which it fails, each as often as given and unchanged |
| `GrammarFilter.Reject` | app/src/main/cpp/whisper.cpp/src/whisper.cpp:5783-5797 | the rejects of all stacks are exactly the candidates that survive on none; they come back with their ids and code points unchanged |
| `GrammarFilter.FilterRejectsExactly` | app/src/main/cpp/whisper.cpp/src/whisper.cpp:5732-5905 | for every text and every pending bytes: a candidate is rejected if and only if its text is invalid, or none of the stacks left by its code points before the first zero may be followed by its pending bytes |
| `GrammarFilter.FilterAgreesWithEngine` | app/src/main/cpp/whisper.cpp/src/whisper.cpp:5783-5905 | a candidate is rejected if and only if accepting it leaves no stack, exactly in these cases: a special text is not rejected; any other is refused before its first zero, or passed with its rest readable, or neither |
| `GrammarFilter.FilterRejectsSpecial` | app/src/main/cpp/whisper.cpp/src/whisper.cpp:5783-5905 | a special text that is rejected but would be skipped |
| `GrammarFilter.FilterMissesZero` | app/src/main/cpp/whisper.cpp/src/whisper.cpp:5783-5905 | a text that passes although accepting it leaves no stack |
| `GrammarPending.PendingRejectsExactly` | app/src/main/cpp/whisper.cpp/src/whisper.cpp:5592-5797 | a candidate with missing bytes is rejected if and only if no stack left by its code points has a class on top that accepts one of the completions, or for a negated class all of them, but for ranges written backwards |
| `GrammarPending.OrdinaryRejectsExactly` | app/src/main/cpp/whisper.cpp/src/whisper.cpp:5592-5797 | without negated classes and such ranges: if and only if every completion is refused by every stack that is left |
| `GrammarPending.KeepsContinuable` | app/src/main/cpp/whisper.cpp/src/whisper.cpp:5499-5797 | in such a grammar a token that some text can continue to what the stacks accept is never rejected, wherever it and the tokens before it cut the characters |
| `Fft.SumSplits` | app/src/main/cpp/whisper.cpp/src/parakeet.cpp:2615-2661 | decimation in time: 2m terms of the sum are m even terms, and m odd terms times a twiddle factor |
| `Fft.SumPeriod` | app/src/main/cpp/whisper.cpp/src/parakeet.cpp:2615-2661 | coefficients of a transform of length h repeat after h |
| `Fft.RootHalf` | app/src/main/cpp/whisper.cpp/src/parakeet.cpp:2615-2661 | half a turn further the twiddle factor changes sign |
| `Fft.Butterfly` | app/src/main/cpp/whisper.cpp/src/whisper.cpp:3093-3101 | both halves of the spectrum from the spectra of the even and odd samples |
| `Fft.DftInto` | app/src/main/cpp/whisper.cpp/src/whisper.cpp:3038-3054 | the naive loop writes the transform of the samples and nothing else |
| `Fft.Gather` | app/src/main/cpp/whisper.cpp/src/whisper.cpp:3073-3083 | the even or odd samples are copied to the scratch right after the input; nothing else changes |
| `Fft.Combine` | app/src/main/cpp/whisper.cpp/src/whisper.cpp:3087-3101 | the butterflies turn the two half transforms in the scratch into the transform, without disturbing what is still to be read |
| `Fft.Fft` | app/src/main/cpp/whisper.cpp/src/whisper.cpp:3060-3102 | for every length dividing the table, even or odd, the recursive in-place transform writes the discrete Fourier transform, leaves the samples as they were, and touches only the n cells after them and 6n cells of the output |
| `Fft.FrameSpectrum` | app/src/main/cpp/whisper.cpp/src/parakeet.cpp:2679-2709 | the buffers of 2n and 8n cells a worker allocates are large enough |
| `Fft.FramePower` | app/src/main/cpp/whisper.cpp/src/whisper.cpp:3104-3137 | the power spectrum up to the middle frequency is the squared modulus of the transform, although it is written over the spectrum |
| `LocalAttention.PadFramesGet` | app/src/main/cpp/whisper.cpp/src/parakeet.cpp:1673-1679 | the padded sequence is the frames shifted by the left context, zero outside, and long enough for all windows |
| `LocalAttention.ChunkKeysGet` | app/src/main/cpp/whisper.cpp/src/parakeet.cpp:1681-1690 | an element of the overlapping window view is a frame of the padded sequence, inside the buffer |
| `LocalAttention.SkewGet` | app/src/main/cpp/whisper.cpp/src/parakeet.cpp:1694-1705 | enlarging the row stride by one moves row q by q elements, inside the buffer |
| `LocalAttention.UnskewGet` | app/src/main/cpp/whisper.cpp/src/parakeet.cpp:1731-1739 | shrinking it moves row q back: its weights from element q on, padding of the row above before that |
| `LocalAttention.ContentScoresGet` | app/src/main/cpp/whisper.cpp/src/parakeet.cpp:1669-1719 | for any number of frames, score j of frame t is the similarity of frame t with frame t - left + j, zero outside the audio |
| `LocalAttention.WeightsGet` | app/src/main/cpp/whisper.cpp/src/parakeet.cpp:1720-1725 | the weights are the masked softmax of content plus position scores of the band |
| `LocalAttention.BandOfZerosGet` | app/src/main/cpp/whisper.cpp/src/parakeet.cpp:1727-1739 | after padding, chunking and the inverse stride the weights are in place with zeros outside the window |
| `LocalAttention.MaskedBandGet` | app/src/main/cpp/whisper.cpp/src/parakeet.cpp:1740-1740 | so multiplying with the local mask changes nothing |
| `LocalAttention.ValueWindowsGet` | app/src/main/cpp/whisper.cpp/src/parakeet.cpp:1742-1758 | the transposed windows of values are frames of the sequence, zero outside |
| `LocalAttention.ChunkRowIsBanded` | app/src/main/cpp/whisper.cpp/src/parakeet.cpp:1760-1760 | a row of the chunked product is the row of banded attention |
| `LocalAttention.AttendIsBanded` | app/src/main/cpp/whisper.cpp/src/parakeet.cpp:1648-1766 | chunked local attention equals direct banded attention for every frame of any number of frames; group padding never reaches a real row |
| `LocalAttention.LocalMask` | app/src/main/cpp/whisper.cpp/src/parakeet.cpp:2001-2014 | the nested loops fill the skew mask of a chunk |
| `LocalAttention.AttnMask` | app/src/main/cpp/whisper.cpp/src/parakeet.cpp:1988-1997 | the nested loops mask exactly the band positions outside the audio |
| `LocalAttention.BuildLocalAttention` | app/src/main/cpp/whisper.cpp/src/parakeet.cpp:1648-1766 | the steps of the graph, with the mask, give banded attention for a symmetric band |
| `RelativeShift.ShiftAligns` | app/src/main/cpp/whisper.cpp/src/parakeet.cpp:1790-1824 | pad, roll, reshape and the offset views put the score of query q for relative position q - k in entry (k, q), independently of the padding value, and read inside the buffer, for any number of frames |
| `RelativeShift.FirstGet` | app/src/main/cpp/whisper.cpp/src/parakeet.cpp:1804-1811 | the first view aligned with the rotated scores |
| `RelativeShift.FirstViewInBounds` | app/src/main/cpp/whisper.cpp/src/parakeet.cpp:1804-1811 | the first view is inside its buffer if and only if there is a single frame |
| `FullAttention.PositionScoresAgree` | app/src/main/cpp/whisper.cpp/src/parakeet.cpp:1787-1824 | if both position tables hold one embedding of relative positions, the shifted full-path score of a key and a query equals the position score of the band's entry for that key, for every band width |
| `FullAttention.ScoresAgree` | app/src/main/cpp/whisper.cpp/src/parakeet.cpp:1648-1827 | so the whole scores of the full and the local path agree on every key in the band |
| `FullAttention.FullMask` | app/src/main/cpp/whisper.cpp/src/parakeet.cpp:1980-1987 | the nested loops mask exactly the keys past the audio |
| `FullAttention.FullIsBanded` | app/src/main/cpp/whisper.cpp/src/parakeet.cpp:1771-1843 | attention over all frames is banded attention with n - 1 frames on each side, if the masked entries outside the audio make no difference to the softmax of the row concerned |
| `FullAttention.PathsAgree` | app/src/main/cpp/whisper.cpp/src/parakeet.cpp:1648-1843 | so chunked attention with the widest band and attention over all frames give the same result for that row |
| `VadScan.ScanProbs` | app/src/main/cpp/whisper.cpp/src/whisper.cpp:5215-5346 | the loop over frames computes the state machine's raw segments |
| `VadScan.StepKeeps` | app/src/main/cpp/whisper.cpp/src/whisper.cpp:5272-5340 | one frame keeps the invariant: flags agree, silences and resumptions are recorded in order after the segment's start, and segments so far are raw |
| `VadScan.RunKeeps` | app/src/main/cpp/whisper.cpp/src/whisper.cpp:5265-5341 | after every frame of every scan the two speech flags agree and the invariant holds |
| `VadScan.SegmentsAreRaw` | app/src/main/cpp/whisper.cpp/src/whisper.cpp:5265-5346 | for any probabilities the raw segments are non-empty, in order, apart, inside the audio, at most the maximum plus one window long; each starts at a frame of speech and ends at silence, at the end of the audio, or because it was overlong |
| `VadCoverage.LostExactly` | app/src/main/cpp/whisper.cpp/src/whisper.cpp:5265-5346 | a frame of speech is in no raw segment if and only if an overlong segment was cut at it or its stretch was dropped |
| `VadCoverage.CutIsNotCovered` | app/src/main/cpp/whisper.cpp/src/whisper.cpp:5305-5312 | a frame at which an overlong segment was cut is in no segment |
| `VadCoverage.DroppedIsNotCovered` | app/src/main/cpp/whisper.cpp/src/whisper.cpp:5314-5340 | a stretch dropped in a frame is in no segment of the whole scan |
| `VadCoverage.DroppedIsShort` | app/src/main/cpp/whisper.cpp/src/whisper.cpp:5272-5346 | a dropped stretch is at most the minimum long; it starts with the first speech, or with speech after a silence that was long enough or at which a segment was split, or after a cut; and it is followed by no speech for the minimum silence, or ends with the audio |
| `VadEnds.RawEndsRight` | app/src/main/cpp/whisper.cpp/src/whisper.cpp:5265-5346 | every raw segment ends with the audio, at a silence that lasts for the minimum, at one of more than 98 ms where it was split because it was overlong, or where it was cut without such a silence; and no silence inside it lasted that long, counted from the last split |
| `VadEnds.PauseForgotten` | app/src/main/cpp/whisper.cpp/src/whisper.cpp:5290-5340 | probabilities for which a split makes the scan run on over a silence that lasted for the minimum |
| `VadPost.MergeAdjacent` | app/src/main/cpp/whisper.cpp/src/whisper.cpp:5348-5367 | the erasing loop computes the merge |
| `VadPost.MergedRuns` | app/src/main/cpp/whisper.cpp/src/whisper.cpp:5348-5367 | merging forms exactly the maximal runs of segments less than 200 ms apart, each from the start of its first to the end of its last raw segment |
| `VadPost.MergedSpaced` | app/src/main/cpp/whisper.cpp/src/whisper.cpp:5348-5367 | merged segments are at least 200 ms apart, in order, and inside the audio |
| `VadPost.DropShort` | app/src/main/cpp/whisper.cpp/src/whisper.cpp:5369-5378 | the erasing loop computes the filter |
| `VadPost.KeptExactly` | app/src/main/cpp/whisper.cpp/src/whisper.cpp:5369-5378 | exactly the segments of at least the minimum duration are kept |
| `VadPost.KeptSpaced` | app/src/main/cpp/whisper.cpp/src/whisper.cpp:5369-5378 | dropping segments keeps order and gaps |
| `VadPost.PadAndConvert` | app/src/main/cpp/whisper.cpp/src/whisper.cpp:5394-5431 | padding in place, left to right, computes the closed form of the padded bounds in centiseconds |
| `VadPost.PaddedSpaced` | app/src/main/cpp/whisper.cpp/src/whisper.cpp:5394-5426 | padding keeps every segment, stays inside the audio, and never makes two segments overlap |
| `VadPost.PaddedExactly` | app/src/main/cpp/whisper.cpp/src/whisper.cpp:5394-5426 | the outer ends move by a full pad or to the ends of the audio; a gap of at least two pads shrinks by one on each side, a shorter one by half of itself on each side |
| `VadPost.RoundingMonotone` | app/src/main/cpp/whisper.cpp/src/whisper.cpp:4465-4471 | rounding to centiseconds keeps order, separates times at least a centisecond apart, and moves a time by at most half a centisecond |
| `VadPost.RoundedTimed` | app/src/main/cpp/whisper.cpp/src/whisper.cpp:4465-4471 | rounded segments are in order, do not overlap and lie in range; those of at least a centisecond stay non-empty |
| `VadPost.SegmentsFromProbs` | app/src/main/cpp/whisper.cpp/src/whisper.cpp:5211-5445 | the whole detector is the scan, merge, filter, padding and rounding in that order |
| `VadPost.DetectedTimed` | app/src/main/cpp/whisper.cpp/src/whisper.cpp:5211-5445 | its result is in order, without overlaps, and inside the audio |
| `VadPost.DetectedNotEmpty` | app/src/main/cpp/whisper.cpp/src/whisper.cpp:5211-5445 | with windows of at least 160 samples every detected segment has a length, also once it is rounded |
| `VadPost.LongSpeechSurvives` | app/src/main/cpp/whisper.cpp/src/whisper.cpp:5348-5430 | every raw segment of at least the minimum duration lies inside a final one |
| `TimeMap.CopySpeech` | app/src/main/cpp/whisper.cpp/src/whisper.cpp:6729-6784 | the loop pushes exactly the table points and copies exactly the audio of the segments, with silences between them |
| `TimeMap.PointsRise` | app/src/main/cpp/whisper.cpp/src/whisper.cpp:6730-6784 | as pushed, processed and original times both rise: the sort can only reorder equal times |
| `TimeMap.PointsAgree` | app/src/main/cpp/whisper.cpp/src/whisper.cpp:6730-6784 | when no segment is clamped, equal processed times have equal original times |
| `TimeMap.SegmentAdjacent` | app/src/main/cpp/whisper.cpp/src/whisper.cpp:6730-6784 | the two ends of an unclamped segment are exactly its duration apart, with no other point between them or at odds with them |
| `TimeMap.SegmentAudio` | app/src/main/cpp/whisper.cpp/src/whisper.cpp:6729-6784 | for an unclamped segment the filtered audio holds exactly its samples, then as much of the overlap as there is audio if another segment follows, then 1600 zeros up to the next |
| `TimeMap.SilenceAdjacent` | app/src/main/cpp/whisper.cpp/src/whisper.cpp:6729-6784 | and in the table the overlap stands still in original time, and the 10 centiseconds of silence reach to the start of the next segment |
| `TimeMap.FilteredSize` | app/src/main/cpp/whisper.cpp/src/whisper.cpp:6697-6784 | the filtered audio and the silences not written for segments that copy nothing are together exactly the buffer allocated and the samples by which segments start past the end |
| `TimeMap.BufferSufficesIff` | app/src/main/cpp/whisper.cpp/src/whisper.cpp:6697-6784 | so the buffer is large enough if and only if those samples are at most those silences |
| `TimeMap.BufferSuffices` | app/src/main/cpp/whisper.cpp/src/whisper.cpp:6697-6722 | in particular if every segment starts inside the audio |
| `TimeMap.BufferTooSmall` | app/src/main/cpp/whisper.cpp/src/whisper.cpp:5211-6784 | nine probabilities and 4100 samples of audio for which 2080 samples are written to a buffer of 2019 |
| `TimeMap.DetectedBufferNegative` | app/src/main/cpp/whisper.cpp/src/whisper.cpp:5211-6722 | four probabilities for which the size of the buffer is negative |
| `TimeLookup.RemoveDuplicates` | app/src/main/cpp/whisper.cpp/src/whisper.cpp:6792-6800 | the loop keeps what is specified |
| `TimeLookup.UniqueExactly` | app/src/main/cpp/whisper.cpp/src/whisper.cpp:6792-6800 | a point is kept exactly if it is the first of its run of equal times, in order |
| `TimeLookup.TableIsTable` | app/src/main/cpp/whisper.cpp/src/whisper.cpp:6786-6800 | however the unstable sort orders equal times, the table's processed times strictly rise and its original times never fall |
| `TimeLookup.OneTableIff` | app/src/main/cpp/whisper.cpp/src/whisper.cpp:6786-6800 | all sorts lead to one table if and only if points of equal processed time are equal |
| `TimeLookup.SortDoesNotMatter` | app/src/main/cpp/whisper.cpp/src/whisper.cpp:6786-6800 | so they do when no segment is clamped or empty |
| `TimeLookup.ClampedSortMatters` | app/src/main/cpp/whisper.cpp/src/whisper.cpp:6786-6800 | with a clamped segment they do not |
| `TimeLookup.EmptySegmentSortMatters` | app/src/main/cpp/whisper.cpp/src/whisper.cpp:6786-6800 | nor with an empty one |
| `TimeLookup.LowerBound` | app/src/main/cpp/whisper.cpp/src/whisper.cpp:7954-7960 | the binary search returns the first index whose time is not before the one asked for |
| `TimeLookup.MapProcessedToOriginal` | app/src/main/cpp/whisper.cpp/src/whisper.cpp:7941-7980 | the lookup computes the map, for any sorted table |
| `TimeLookup.MapMonotone` | app/src/main/cpp/whisper.cpp/src/whisper.cpp:7941-7980 | the map never goes back in time |
| `TimeLookup.MapHits` | app/src/main/cpp/whisper.cpp/src/whisper.cpp:7962-7965 | it maps every point of the table exactly |
| `TimeLookup.MapBetween` | app/src/main/cpp/whisper.cpp/src/whisper.cpp:7968-7979 | between neighbouring points it is the line through them, rounded down |
| `TimeLookup.MapInRange` | app/src/main/cpp/whisper.cpp/src/whisper.cpp:7946-7952 | it never leaves the original range of the table |
| `TimeLookup.ExactShift` | app/src/main/cpp/whisper.cpp/src/whisper.cpp:6729-6800 | inside a segment, if neither it nor one before it is clamped or empty, the map is the exact shift back to the segment, whatever the sort did and the later segments are |
| `TimeLookup.SilenceStretched` | app/src/main/cpp/whisper.cpp/src/whisper.cpp:6729-6800 | in the silence after it the map runs evenly through the gap to the next segment in the original audio, and stands still in the overlap before |
| `TimeLookup.DetectedUnclamped` | app/src/main/cpp/whisper.cpp/src/whisper.cpp:5211-6800 | a detected segment that ends inside the audio is not clamped or empty, nor is any before it |
| `TimeLookup.DetectedShift` | app/src/main/cpp/whisper.cpp/src/whisper.cpp:5211-6800 | so for windows of at least 160 samples the map is the exact shift inside every detected segment that ends inside the audio, and if the last one does, all sorts lead to one table |
| `TimeLookup.DetectedSilence` | app/src/main/cpp/whisper.cpp/src/whisper.cpp:5211-6800 | so it does in the silence between two detected segments that end inside the audio |
| `TimeLookup.DetectedTimesMonotone` | app/src/main/cpp/whisper.cpp/src/whisper.cpp:6651-6811 | for any probabilities, parameters and sort, the map built from the detected segments never goes back in time |
| `TimeLookup.SegmentTimes` | app/src/main/cpp/whisper.cpp/src/whisper.cpp:7983-8019 | reported segments end where the map says but last at least 10, their starts do not go back, and an end passes the next start only where the minimum was enforced |
| `Dtw.Accumulate` | app/src/main/cpp/whisper.cpp/src/whisper.cpp:8727-8750 | the loops fill the accumulated costs and directions |
| `Dtw.InnerFinite` | app/src/main/cpp/whisper.cpp/src/whisper.cpp:8727-8750 | inside the border every cost is finite |
| `Dtw.TraceStaysInside` | app/src/main/cpp/whisper.cpp/src/whisper.cpp:8735-8745 | the trace leaves the inside only at its first cell, straight to the corner |
| `Dtw.BackIsStaircase` | app/src/main/cpp/whisper.cpp/src/whisper.cpp:8752-8780 | the backtrace is a staircase of unit steps from the first to the last cell, has at most N+M-1 cells, and costs exactly the accumulated cost |
| `Dtw.NoMoreThanTieFree` | app/src/main/cpp/whisper.cpp/src/whisper.cpp:8727-8750 | the accumulated cost is at most that of any staircase that meets no bad tie |
| `Dtw.LeastIsTieFree` | app/src/main/cpp/whisper.cpp/src/whisper.cpp:8727-8780 | a trace whose cost is least meets no bad tie |
| `Dtw.BackIsCheapestIff` | app/src/main/cpp/whisper.cpp/src/whisper.cpp:8720-8795 | the returned staircase is a cheapest one if and only if some cheapest staircase avoids cells with a bad tie |
| `Dtw.BackIsCheapestWithoutTies` | app/src/main/cpp/whisper.cpp/src/whisper.cpp:8720-8795 | it is cheapest when no cell has a bad tie |
| `Dtw.TieSpoils` | app/src/main/cpp/whisper.cpp/src/whisper.cpp:8735-8745 | a matrix on which it is not |
| `Dtw.DtwAndBacktrace` | app/src/main/cpp/whisper.cpp/src/whisper.cpp:8712-8796 | the walk ends at the corner, never overflows the table of rows, and returns the staircase |
| `Timestamps.Decoder.ProcessLogits` | app/src/main/cpp/whisper.cpp/src/whisper.cpp:6212-6338 | the masking loops mask exactly the ids the rules exclude |
| `Timestamps.Decoder.Sample` | app/src/main/cpp/whisper.cpp/src/whisper.cpp:6503-6510 | the first of the most likely unmasked tokens is picked, and 0 if none is possible |
| `Timestamps.Decoder.Accept` | app/src/main/cpp/whisper.cpp/src/whisper.cpp:7345-7426 | a token updates the sliding window, the result length and the completion flags as the automaton says |
| `Timestamps.NextFollows` | app/src/main/cpp/whisper.cpp/src/whisper.cpp:7359-7375 | whatever token is picked, the window stands at the last timestamp token and moves by at least 20 ms |
| `Timestamps.UnmaskedFits` | app/src/main/cpp/whisper.cpp/src/whisper.cpp:6298-6338 | a token that is not masked keeps timestamps non-decreasing and in pairs, and never goes back in time |
| `Timestamps.RunsAreSafe` | app/src/main/cpp/whisper.cpp/src/whisper.cpp:6298-6375 | in every run of unmasked picks timestamps never decrease, never come three in a row, no text follows a timestamp that closes text, and the failure for going back in time is never reached |
| `Timestamps.ResultEndsAtTimestamp` | app/src/main/cpp/whisper.cpp/src/whisper.cpp:7359-7405 | a decoder that completes after a timestamp returns exactly the tokens up to its last timestamp, which is where the window will stand |
| `Timestamps.UnmaskedIsRun` | app/src/main/cpp/whisper.cpp/src/whisper.cpp:6212-6510 | a decoding in which no pick was masked is a run |
| `Timestamps.NeverStuckUnmasked` | app/src/main/cpp/whisper.cpp/src/whisper.cpp:6212-6510 | no pick is masked as long as some unmasked token is possible |
| `TokenRules.RunExactly` | app/src/main/cpp/whisper.cpp/src/whisper.cpp:6212-6426 | a sequence of tokens is a run of unmasked picks if and only if each token is legal after those before it, by suppression, the first timestamp, the length, pairs and order of timestamps, and decoding goes on after all but the last: no end of text, not too long, audio left, and half of the chunk covered at the last step |
| `TokenRules.ActiveExactly` | app/src/main/cpp/whisper.cpp/src/whisper.cpp:7345-7426 | after a run the decoder is active if and only if decoding goes on, as read off the tokens |
| `TokenRules.EndsExactly` | app/src/main/cpp/whisper.cpp/src/whisper.cpp:7345-7426 | a run that is over has failed if and only if it ended without a timestamp before the end of the audio or was stopped at the last step; a complete one hands over its tokens up to the last timestamp, or all of them and a whole chunk |
| `TokenRules.GoingBack` | app/src/main/cpp/whisper.cpp/src/whisper.cpp:7359-7375 | an earlier timestamp, picked although masked, fails the decoder after text and moves the window back right after a timestamp |
| `TokenRules.WinsMaskText` | app/src/main/cpp/whisper.cpp/src/whisper.cpp:6340-6370 | when timestamps together win, exactly the other ids are masked besides |
| `TokenRules.NextWindow` | app/src/main/cpp/whisper.cpp/src/whisper.cpp:7747-7763 | the next window starts at the last timestamp, or a chunk later or at the end of the audio if the result ends with text and a single timestamp and is not too long |
| `Timestamps.DecodeWindow` | app/src/main/cpp/whisper.cpp/src/whisper.cpp:7205-7440 | every token of the window is the pick of an active decoder in the state after the tokens before it; the flag is set if and only if none of them was masked, which holds if some unmasked token was always possible, and then the tokens are a safe run |
| `Timestamps.RunBounded` | app/src/main/cpp/whisper.cpp/src/whisper.cpp:6298-6375 | after every run of unmasked picks no timestamp is past the window's new position |
| `Segments.Transcript.WrapLast` | app/src/main/cpp/whisper.cpp/src/whisper.cpp:6078-6129 | wrapping terminates despite its restarts; the pieces hold the same tokens in order, meet in time, keep the outer times and the speaker turn, and are cut before a token, other than a piece's first, exactly if it does not fit and a cut is allowed there; without word splitting each has at most the maximum of characters or exactly one text token |
| `Segments.WrapKeepsText` | app/src/main/cpp/whisper.cpp/src/whisper.cpp:6078-6129 | the texts of the pieces concatenate to the text of the segment |
| `Segments.Transcript.Push` | app/src/main/cpp/whisper.cpp/src/whisper.cpp:7663-7681 | a segment is added, stamped and wrapped as asked, with exactly its text, and earlier segments are left alone |
| `Segments.Transcript.Emit` | app/src/main/cpp/whisper.cpp/src/whisper.cpp:7624-7730 | the new segments' texts concatenate to the text of all text tokens, or of all tokens if specials are printed; without wrapping, each segment holds a slice of the tokens up to the first timestamp or the end, with the times, the text and the speaker turn of that slice, and none starts before the one before it ended |
| `Segments.InsideIff` | app/src/main/cpp/whisper.cpp/src/whisper.cpp:7624-7730 | the segments of an unmasked window start in the window and not after their ends if and only if there is no text before the first timestamp, or the timestamp beside the first token lies in the window and is not after the first timestamp |
| `Segments.StartsBeforeWindow` | app/src/main/cpp/whisper.cpp/src/whisper.cpp:7626-7730 | text with no timestamp beside its first token starts before the window |
| `Segments.StartsAfterItsEnd` | app/src/main/cpp/whisper.cpp/src/whisper.cpp:7624-7730 | a window whose only segment ends before it starts |
| `Segments.SampledInTime` | app/src/main/cpp/whisper.cpp/src/whisper.cpp:7531-7730 | the result of any run of unmasked picks satisfies what these need |
| `Transcription.Transcribe` | app/src/main/cpp/whisper.cpp/src/whisper.cpp:7020-7767 | the loop over the audio always ends, with less than 100 ms left; each window starts where the one before it ended, at least 20 ms later, holds the picks, and is a safe run unless a decoder was stuck; each window adds the segments that spell its result, or none if it holds no speech, so that together they spell all windows' text tokens, and if no pick was masked and text before a first timestamp starts inside its window, no segment of the whole transcript starts before the one before it ended |
| `Transcription.WindowInOrder` | app/src/main/cpp/whisper.cpp/src/whisper.cpp:7590-7767 | the segments of a window come after those of the windows before it, and before the next window |
| `Tdt.BestIsLargest` | app/src/main/cpp/whisper.cpp/src/parakeet.cpp:2510-2530 | the choice is the first of the largest logits |
| `Tdt.Decoder.Frame` | app/src/main/cpp/whisper.cpp/src/parakeet.cpp:2491-2587 | one frame picks a token and a duration, and moves on as the rules say |
| `Tdt.Decoder.Decode` | app/src/main/cpp/whisper.cpp/src/parakeet.cpp:2451-2590 | decoding terminates for any logits and non-negative durations; the predictor state is the fold over blank and the emitted tokens |
| `Tdt.DecodedWalks` | app/src/main/cpp/whisper.cpp/src/parakeet.cpp:2491-2587 | the frames looked at start at 0 and leave the audio; each look moves on by the best duration, by one frame if that is 0 after blank or after as many looks as a frame may have tokens, and else stays; each is in the state predicted from the tokens before it, and the non-blank choices of these looks, in order, are what is decoded |
| `Tdt.WalkIsDecoded` | app/src/main/cpp/whisper.cpp/src/parakeet.cpp:2491-2587 | and any looks that satisfy these rules emit what is decoded |
| `Tdt.FewTokens` | app/src/main/cpp/whisper.cpp/src/parakeet.cpp:2491-2587 | at most frames times max(1, limit) tokens are emitted |
| `Tdt.GreedyChoice` | app/src/main/cpp/whisper.cpp/src/parakeet.cpp:2496-2556 | each token is the greedy choice at its frame, given the tokens before it, and never blank |
| `Tdt.DecodedInTime` | app/src/main/cpp/whisper.cpp/src/parakeet.cpp:2436-2447 | no token starts before the one before it ended |
| `Tdt.RefineTimestamps` | app/src/main/cpp/whisper.cpp/src/parakeet.cpp:2402-2419 | the in-place loop puts punctuation at the end of the last spoken token before it |
| `Tdt.RefinedExactly` | app/src/main/cpp/whisper.cpp/src/parakeet.cpp:2402-2419 | a punctuation token is moved to the end of the last token before it that is none; every other token, and leading punctuation, stays |
| `Tdt.RefinedInTime` | app/src/main/cpp/whisper.cpp/src/parakeet.cpp:2402-2419 | which keeps the order of times |

## Left out

- Network evaluation, ggml graphs, backends and weights: `net`, `soft`, `joint` and `predict` are arbitrary functions, and the tensor operations follow their documented meaning on real numbers.
- Floating-point rounding everywhere: samples, costs and probabilities are real numbers, times are integers, and centisecond conversion is exact rounding.
- 32-bit overflow of sample counts, positions and table indices; the UTF-8 decoder's 32-bit shift is modelled.
- Grammar.MatchPartialChar: does not model the overflow of the shift by 6 * n for five or more missing bytes, which the decoder never produces.
- GrammarLanguage.EngineDecidesLanguage: needs rules without left recursion, also through nullable prefixes; the source would not terminate on others.
- Stacks of the grammar engine hold positions, not pointers into the caller's rule array, and copying the rules is not modelled.
- The candidates' scores: the sort of beam search may permute in any way, and scores, entropy and log-probability thresholds are not computed.
- DecodeSession.Session.Run: does not model temperature fallback (each temperature is one run) or re-creating the cache when the number of decoders changes.
- DecodeSession.Session.UpdateFinished: when a decoder completes or fails is an arbitrary decision per decoder and step there; the rules are in modules Timestamps and TokenRules.
- Thread scheduling: the sampling workers act on separate decoders and are modelled one after the other.
- Cross-attention cache, encoder, and the padding constants of the attention window beyond rounding up.
- Fft.Fft: the sine and cosine tables are any table with the addition theorem, a start and a half turn; that the computed values have it is floating point.
- The Hann window, mel filters and clamping around the transform.
- The feature projections before and after attention.
- FullAttention.FullIsBanded: supposes that entries outside the audio make no difference to the softmax of the row concerned, as the mask value of -1e30 does in floating point; and that the audio has at least one frame that is not padding.
- VadScan.ScanProbs: does not model negative durations or a threshold below 0.01, for which the lower threshold would exceed the upper one.
- Transcription.Transcribe: follows one decoder per window; which decoder or temperature wins only selects among such runs. Which windows hold no speech and which timestamp is most likely beside a token are arbitrary. Callbacks, suppression by regular expression and non-speech lists only add masked ids; the previous text as a prompt is part of what the scores depend on. The order of times supposes the 1501 timestamps that the loader gives every vocabulary.
- Timestamps.Decoder.Sample: models picking the most likely token; random sampling is covered by the theorems on arbitrary runs.
- Segments.Transcript.Emit: the token-level times computed from the signal energy are an arbitrary stamp, so the order of times is stated without wrapping; wrapping also drops the text of specials, so what is printed with specials is stated without wrapping; real-time printing and callbacks are not modelled.
- Tdt.Decoder.Decode: the abort callback and the token callback are not modelled; which tokens are punctuation is a parameter.
- JNI glue, logging, timing, benchmarks, model loading and the application classes.
