# SEIF verification model

A Dafny model of the personal-data gateway's dense algorithms, with proofs of what they are for. `dafny verify
dfyconfig.toml` checks everything. One module per file; the modules follow the program's structure.

| module | what it models |
|---|---|
| `Base`, `Text`, `Spans` | Python slices, bisection, stable sorting, sums; character classes as parameters; spans and the key order of overlapping spans |
| `Resolution`, `CoverIndex`, `AddressTails`, `Boundaries`, `Merge` | the span algebra of `seif/detector.py` and `seif/ner_boundaries.py` |
| `Tokens`, `Transform`, `ReplacementValues`, `Restore` | reversible masking, what its values look like, and its two inverses (`seif/transform.py`) |
| `Vault`, `Protocol`, `ProtocolRuns` | the in-memory record store, the request handler's atomic sections, and all their interleavings |
| `Words`, `Windows`, `WindowPlans`, `Entities`, `Decoder`, `DecoderMeaning`, `Batch`, `BatchErrors`, `GraphContexts` | the RuBERT word decoder, sequential and batched |
| `Chunks` | detection over overlapping chunks |
| `Executor`, `ExecutorRuns`, `ExecutorResults` | the micro-batching worker as a state machine, its runs, and what they deliver |
| `WeightedCycle`, `TokenBucket` | the two schedulers with numeric bounds |
| `Witnesses`, `RunWitnesses` | examples that meet every assumption, and two runs worth seeing |

How it is put together:

- Code that updates state step by step is a method or a class with a loop; its postcondition equates the result, or the
  new state, with a specification function, and the theorems are lemmas about that function. Large loops hand one turn
  to a helper method.
- Each specification function is in turn characterised without its own definition: `WindowPlans` says what a window plan
  is by subword sums, and that only one exists; `DecoderMeaning` spells a decoded text out from the tokenizer's and the
  model's answers, and shows that nothing else fits; `Resolution.RivalsDecided`, `AddressTails.TailSpelledOut`,
  `Boundaries.RefinementMeans`, `Chunks.AllParsedMeans`, `Restore.RestoreMeans` and the lemmas about runs do the same
  for the other parts.
- Concurrency is a state machine: each step is one section the code runs under its lock or between two awaits. A run is
  any sequence of enabled steps, so the lemmas about runs hold for every interleaving. The class methods of
  `Executor.BatchExecutor`, `Vault.MemoryVault` and `Protocol.Handler` are proved equal to these steps.
- What the code calls but does not define is a parameter: the neural network, the tokenizer, `str.isalnum`,
  `str.isspace`, the address-marker patterns, the IP parser, the digest, the random source, the clock.

Assumptions, each a named predicate that a theorem requires where it needs it, and each met by an example or a
construction in `Witnesses` or `RunWitnesses`:

- the network answers with one row of logits per position (`Decoder.WellShaped`) and names native types
  (`Decoder.ReadsNative`); in a padded batch a row's attended positions read as they do alone
  (`Batch.PaddingIndependent`): `Witnesses.NetworkExists`, `Witnesses.TokenizerExists`;
- fingerprints and key names are injective (`Protocol.Settings.Valid`) and the store has a lifetime
  (`Vault.Limits.Valid`): `RunWitnesses.RaceIsARun`, `Witnesses.StoreRunExists`;
- the first `supply` random draws do not repeat (`Transform.FreshSupply`), and in token mode the supply is at least
  the number of spans times one more than the length of the text (`Transform.DrawsFor`): `Witnesses.SupplyExists` with
  a supply of 2^64, which `Transform.SupplySuffices` shows to be enough for any spans of any text below 2^32
  characters; `Witnesses.StyleExists` and `Witnesses.CountingLasts` say the same of the service's own style. Mask and
  synthetic mode need no supply;
- no character is both alphanumeric and whitespace (`Text.CharTable.Lawful`): `Witnesses.CharactersCanBeTold`;
- the model service answers each chunk with the entities clipped to it (`Chunks.Consistent`):
  `Witnesses.ConsistentServiceExists`, for any entities the wire contract admits;
- the batched model answers row by row, and somehow: `RunWitnesses.RowWiseModelExists`;
- weights are positive and jitters in [0, 1) (`WeightedCycle.Run`): `Witnesses.ScheduleRunExists`, for all of them;
- the clock does not run backwards; encryption is the identity.

Four results worth knowing:

- Batched decoding and decoding alone agree on every text, but not always on which error is reported: the batch
  tokenizes all texts before it looks at the label inventory, decoding alone checks the labels first. The errors agree
  exactly when the labels are valid or the tokenizer fails no text (`BatchErrors.ErrorsAgree`); the text "a" shows the
  difference at a model with wrong labels (`Witnesses.ErrorsDiffer`).
- A text that already contains something shaped like a token, outside every replaced span, cannot be restored by token
  substitution; `Restore.TokenModeRestores` is the exact condition, and a digit in front of a made token an input
  (`Witnesses.Stray.Refused`). Exact restoration is unaffected.
- Chunk overlap has to exceed the longest entity by at least one character: with an overlap equal to that length an
  entity in front of the first edge is lost (`Chunks.OverlapMustExceedLimit`). The dimensions in use leave 32.
- A request that found no record, computed one and then met another request's record is refused even if its text is
  that record's mask; only a request that finds the record when it reads restores. `ProtocolRuns.OtherTextsRefused`
  and `ProtocolRuns.ProcessTwiceIsIdentity` are the two halves, `RunWitnesses.LateWriterIsRefused` a run that shows both.

## Model

| member | source | states |
|---|---|---|
| `Spans.KeyBeforeTotal` | seif/detector.py:713-731 | of two different spans exactly one comes first in the priority key, so no tie is left to set iteration order |
| `Resolution.SelectCluster` | seif/detector.py:713-739 | one cluster's selection is sorted, disjoint and the kernel: it keeps a span iff no kept span that precedes it in key order overlaps it |
| `Resolution.PlaceSpan` | seif/detector.py:732-738 | looking only at the two neighbours found by bisection decides overlap with every accepted span; insertion keeps order |
| `Resolution.GreedyIsKernel` | seif/detector.py:718-739 | a greedy pass in key order yields the kernel: every rejected span overlaps an accepted one that precedes it |
| `Resolution.KernelUnique` | seif/detector.py:742-756 | a set of candidates has only one kernel |
| `Resolution.ResolveOrdered` | seif/detector.py:745-756 | the cluster-by-cluster pass over position order keeps the kernel of all candidates |
| `Resolution.Resolve` | seif/detector.py:742-756 | equals one global greedy pass over all deduplicated candidates in key order; sorted and pairwise disjoint |
| `Resolution.ResolutionIgnoresInputOrder` | seif/detector.py:742-756 | equal candidate sets resolve to the same list whatever the input order |
| `Resolution.LonelyAreKept` | seif/detector.py:742-756 | kept spans share no character, and a candidate that shares none with any other is kept |
| `Resolution.RivalsDecided` | seif/detector.py:707-739 | of two candidates that overlap each other and nothing else the one of the stronger type is kept, then the longer, the more confident, the earlier, the one of lesser type name and reason; the other is not |
| `CoverIndex.PrefixMaxima` | seif/ner_boundaries.py:97 | the running maximum bounds all earlier ends, is attained, and never decreases |
| `CoverIndex.ModelParts` | seif/ner_boundaries.py:100-102 | the bisected range, filtered, is exactly the naive scan for overlapping model spans, in order |
| `CoverIndex.ResolvedOverlaps` | seif/detector.py:1043-1045 | the bisected range of a resolved list is exactly the naive overlap scan |
| `CoverIndex.PersonCover` | seif/detector.py:1124-1129 | builds the start index and an end index that is the attained prefix maximum, for arbitrarily overlapping spans |
| `CoverIndex.PersonCovers` | seif/detector.py:784-788 | true iff some core person span contains the position |
| `AddressTails.AddressFragment` | seif/detector.py:1027-1037 | yields the trimmed stretch as a location iff it carries a designator or building number, and nothing otherwise |
| `AddressTails.AddressTailOverlaps` | seif/detector.py:1040-1050 | the overlapped spans if all are rule-recognised address components, else none |
| `AddressTails.AddressTailFragments` | seif/detector.py:1053-1066 | exactly the qualifying trimmed maximal gaps of the candidate between its overlaps |
| `AddressTails.TailAvoidsResolved` | seif/detector.py:1053-1076 | every fragment lies in a gap of the resolved list and inside its candidate |
| `AddressTails.ResolvedSurvive` | seif/detector.py:1069-1076 | re-resolution with pieces that avoid resolved spans keeps all resolved spans; a dropped piece lost to a better new one |
| `AddressTails.PreserveAddressTails` | seif/detector.py:1069-1076 | sorted, disjoint, keeps every resolved span, adds only tails, and drops a tail only for an overlapping better tail |
| `AddressTails.TailSpelledOut` | seif/detector.py:1017-1066 | tails are exactly the stretches of a place overlapped only by rule-recognised components that no resolved span touches, that are designators without outer separators, and that only separators divide from the next span or the end of the place |
| `Boundaries.CompatibleParts` | seif/ner_boundaries.py:37-46 | one cursor pass is true iff the parts are sorted, disjoint, nonempty, inside the span, of its family and on word boundaries |
| `Boundaries.Remainder` | seif/ner_boundaries.py:49-56 | nothing for a stretch without letters and digits, else its core without outer whitespace, with the span's meaning |
| `Boundaries.Partition` | seif/ner_boundaries.py:59-67 | sorted disjoint pieces inside the span; each is a part or a gap core, each part is a piece, all letters and digits stay covered |
| `Boundaries.RefineSpan` | seif/ner_boundaries.py:99-110 | a span is split into its components and the stretches between them iff it is splittable and they are compatible, otherwise passed through; `Boundaries.RefinementMeans` says which spans these are |
| `Boundaries.PreserveModelBoundaries` | seif/ner_boundaries.py:83-111 | names, full addresses, custom rules, complete network addresses and spans whose overlapping candidates are no components of theirs stand unchanged; of every other span each component stands, and whatever else of it stands is trimmed and divided from components by whitespace; the same letters and digits stay covered |
| `Boundaries.WithoutBlanksMeans` | seif/ner_boundaries.py:70-80 | the network-address check reads the span's text without blanks and tabs, everything else in order |
| `Boundaries.RefinementMeans` | seif/ner_boundaries.py:83-111 | the same of any refined list, in terms of the candidates in whatever order they come |
| `Boundaries.RefinementKeepsCoverage` | seif/ner_boundaries.py:83-111 | output sorted and disjoint; each piece lies in one original with its type, confidence and reason; exactly the same letters and digits covered |
| `Boundaries.RefinementKeepsMaskedText` | seif/ner_boundaries.py:83-111 | mask-mode output is the same with and without refinement, character for character |
| `Merge.MergeCandidates` | seif/detector.py:1132-1140 | resolving, grafting and refining end sorted and disjoint; every span is cut from a candidate; exactly the letters and digits of the greedy winners and of the winning tails are covered; each of these spans stands or is cut at the boundaries of the model's components |
| `Merge.GraftedUnique` | seif/detector.py:1132-1137 | the candidates determine the winners and the winning tails, hence what is covered |
| `Tokens.MatchUnique` | seif/transform.py:7 | two matches of the token pattern at one place have the same length |
| `Tokens.ScanInterleaving` | seif/transform.py:83-101 | the leftmost scan of token-free literals interleaved with tokens finds exactly those tokens |
| `Tokens.EveryTextInterleaves` | seif/transform.py:83-101 | every text is such an interleaving, so statements about interleavings cover all inputs |
| `Transform.DrawToken` | seif/transform.py:47-50 | the redraw loop ends within one draw more than the text has characters, and its token does not occur in the text |
| `Transform.ChooseReplacement` | seif/transform.py:42-57 | keeps one value per identity: the shape in mask mode, a fresh token, or the numbered synthetic value of the first occurrence |
| `Transform.MaskText` | seif/transform.py:35-62 | the output interleaves the gaps with the replacements, the record says where each landed and what it replaced, values fit the mode |
| `Transform.SupplySuffices` | seif/transform.py:35-62 | masking any spans of a text below 2^32 characters draws at most 2^64 times, the number of tokens a kind has |
| `Transform.ServiceStyleIsLawful` | seif/transform.py:18-50 | no synthetic value is empty; the tokens of a supply that does not repeat are distinct and match the token pattern |
| `ReplacementValues.DecimalDenotes` | seif/transform.py:21-30 | the ordinal is written as a decimal numeral without leading zeros that denotes it |
| `ReplacementValues.NumberedStayApart` | seif/transform.py:18-57 | two people, cardholders, e-mail or postal addresses get the same synthetic value iff they have the same type and text |
| `ReplacementValues.OthersHideTheirText` | seif/transform.py:18-57 | a synthetic value of a fixed kind does not depend on the text; of any other unnumbered kind it stars the letters and digits |
| `ReplacementValues.TokensSpelledOut` | seif/transform.py:42-50 | a token names its span's type and occurs nowhere in the text; two spans share one iff they have the same type and text |
| `Witnesses.SupplyExists` | seif/transform.py:47 | sixteen hexadecimal digits allow 2^64 draws without repetition |
| `Restore.RestoreExact` | seif/transform.py:65-80 | the loop equals coordinate-wise restoration, refusing overlapping, misplaced or altered replacements |
| `Restore.RestoreMeans` | seif/transform.py:65-80 | exact restoration succeeds iff every recorded replacement is found at its place, in order, and then puts the originals between the untouched stretches |
| `Restore.LastEntryWins` | seif/transform.py:86 | of several entries with one replacement the last says what it stands for |
| `Restore.MaskThenRestore` | seif/transform.py:35-80 | for every sorted disjoint span list and each mode, restoring what masking recorded gives the text exactly |
| `Restore.MaskModeStars` | seif/transform.py:14-62 | mask mode keeps the length, stars exactly the covered letters and digits and changes nothing else |
| `Restore.RestoreTokens` | seif/transform.py:83-101 | counting the output before substituting equals substituting over the scan, with the same refusals in the same order |
| `Restore.RestoreRearranged` | seif/transform.py:83-101 | tokens in any order and multiplicity become their originals in one pass; refused iff unknown, absent, or longer than the limit |
| `Restore.PickedTokensRestore` | seif/transform.py:83-101 | any text made of a token-mode record's own tokens, in any order and multiplicity, becomes the originals in that order, or is too long |
| `Restore.TokenRecordMap` | seif/transform.py:42-57 | a token-mode record knows exactly its own tokens, none of which occurs in the text, each with the right original |
| `Restore.StrayTokenRefused` | seif/transform.py:83-101 | a token-shaped stretch outside the spans makes token restoration refuse |
| `Restore.TokenModeRestores` | seif/transform.py:83-101 | token restoration of the unedited text returns the original iff a span was replaced and no gap contains a token-shaped stretch |
| `Witnesses.Stray.Refused` | seif/transform.py:83-101 | an input with a stray token: its untouched output is refused by token restoration and restored exactly |
| `Vault.PoppedAreExpired` | seif/vault.py:88-95 | popping from the front while expired removes exactly the expired records |
| `Vault.AfterKeepsSound` | seif/vault.py:97-128 | every operation keeps both capacity limits, distinct keys and expiries in insertion order |
| `Vault.MemoryVault.Expire` | seif/vault.py:88-95 | leaves exactly the live records and the byte counter at their total size |
| `Vault.MemoryVault.Read` | seif/vault.py:97-105 | returns the live record of the key, if any, and changes nothing else |
| `Vault.MemoryVault.PutIfAbsent` | seif/vault.py:107-128 | returns the live record if there is one, refuses when full, else stores with the right expiry and byte count |
| `Vault.RunIsSound` | seif/vault.py:88-128 | over every run both capacity limits hold, keys are distinct and expiries ordered |
| `Vault.HeldIffEntered` | seif/vault.py:88-128 | an unexpired entry is in the store iff some earlier operation entered it |
| `Vault.FirstWriterWins` | seif/vault.py:107-128 | from storing to expiry every operation on the key finds that record unchanged and enters none |
| `Vault.FoundWasEntered` | seif/vault.py:97-128 | whatever is found was entered under its key earlier and has not expired |
| `Protocol.BuiltRestores` | seif/app.py:397-403 | a record built by any request restores its own masked text to the text it was built from |
| `Protocol.ResolveIsExpected` | seif/app.py:416-427 | a reader's answer in terms of texts: mask for the original, original for the mask, tokens on unmask, refusal otherwise |
| `Protocol.KeptIsExpected` | seif/app.py:408-414 | a writer that meets another record is answered like a reader of the same text, or refused |
| `Protocol.Handler.RestoreRecord` | seif/app.py:322-337 | the restoring branch, with the error of each failing condition |
| `Protocol.Handler.Look` | seif/app.py:416-434 | reading the store and resolving the record it holds is the first atomic section of the protocol; what it answers is spelled out by `ProtocolRuns.ReadersFindNothing` and `ProtocolRuns.AnswersMean` |
| `Protocol.Handler.Compute` | seif/app.py:397-407 | transforming any selected spans builds a record that belongs to the request, without originals where unmasking is not allowed |
| `Protocol.Handler.Store` | seif/app.py:408-414 | put-if-absent and answering from the record kept is the second atomic section |
| `ProtocolRuns.StepKeepsInv` | seif/app.py:386-434 | every step keeps: stored records were built by requests of their key, and every answer is what that record's text implies |
| `ProtocolRuns.AnswerMeaning` | seif/app.py:386-434 | in every run, whoever was answered on account of a record was told what the text behind it implies |
| `ProtocolRuns.MaskRepliesAgree` | seif/app.py:386-434 | while the record behind a mask answer lives, every request on its tenant and payload id that reads or writes is told that same mask iff it brings the same text (and mode, when only masking); none is told another mask |
| `ProtocolRuns.RestoredBelongsToTenant` | seif/app.py:322-337 | a restoration goes only to the tenant and payload id that supplied the text, and only where restoring is allowed |
| `ProtocolRuns.TextNeedsRecord` | seif/app.py:386-434 | no answer carries text unless a stored record backs it |
| `ProtocolRuns.ReadersMeetTheRecord` | seif/app.py:416-427 | until its expiry every request on the key that reads is answered from that record, whatever runs in between |
| `ProtocolRuns.WritersMeetTheRecord` | seif/app.py:408-414 | and every request on the key that comes to write is answered from that record too |
| `ProtocolRuns.MeetingMeans` | seif/app.py:386-434 | reading or writing, a request that meets a live record is told what the text behind it implies |
| `ProtocolRuns.ReadersFindNothing` | seif/app.py:416-434 | a reader that finds no live record goes on to compute one, unless it only unmasks: then the mapping has expired |
| `ProtocolRuns.OwnRecordIsKept` | seif/app.py:408-414 | a writer that finds no live record is told its own mask and its record is kept for the lifetime iff both limits leave room, else the vault is full and nothing is kept |
| `ProtocolRuns.AnswersMean` | seif/app.py:322-434 | meeting a live record, a request is told the mask, the original text or one of five refusals, each exactly under its condition on texts, operation, mode and policy |
| `ProtocolRuns.NoOriginalsKept` | seif/app.py:397-407 | the store holds no original for a tenant that may not unmask |
| `ProtocolRuns.ProcessTwiceIsIdentity` | seif/app.py:322-337 | processing the answer of process before expiry gives the text back in every interleaving |
| `ProtocolRuns.RearrangementsUnmask` | seif/app.py:330-336 | while a token-mode record lives, unmasking any rearrangement of its tokens yields the rearranged originals, or too large |
| `ProtocolRuns.OtherTextsRefused` | seif/app.py:322-414 | while the record lives a text other than its original is refused on writing, and on reading unless it is the mask or is unmasked by tokens |
| `RunWitnesses.RaceIsARun` | seif/app.py:386-434 | a run in which two requests race, both get the first writer's mask on writing, and a third turns that mask back into the text |
| `RunWitnesses.LateWriterIsRefused` | seif/app.py:386-434 | a run in which a late writer whose text is the stored mask is refused and a reader with the same text gets the original |
| `Words.WordsWithOffsets` | seif/rubert_decoder.py:31-43 | words quote the text at their offsets, are disjoint and ordered, and cover every character that is not skipped whitespace |
| `Words.WordsSpelledOut` | seif/rubert_decoder.py:24-43 | exactly the marks and the characters that are no whitespace lie in words; marks and the dots at a border of a run are words of their own; the other characters of a run are in one word |
| `Words.TilingUnique` | seif/rubert_decoder.py:31-43 | only one such splitting exists, so the postcondition determines the result |
| `Decoder.Tokenize` | seif/rubert_decoder.py:55-77 | counts each word's subwords, with each refusal of the alignment contract |
| `Decoder.TokenizeMeans` | seif/rubert_decoder.py:55-77 | refused, in this order, iff ids and owners are misaligned, a word that may not be dropped has no subword, or a word has more than 510; accepted with the number of subwords of each word |
| `Decoder.BlocksAreContiguous` | seif/rubert_decoder.py:65-71 | a word's subwords are exactly the block between its boundaries |
| `Decoder.FirstSubwordOfWord` | seif/rubert_decoder.py:150-159 | the position read for a kept word is its first subword, although dropped words leave no ids |
| `Windows.WindowEnd` | seif/rubert_decoder.py:87-93 | the end is the furthest whose subwords fit 510 |
| `Windows.MarginWords` | seif/rubert_decoder.py:96-104 | the fewest words that reach the threshold, or all |
| `Windows.Ownership` | seif/rubert_decoder.py:107-116 | the owned slice of a window |
| `Windows.RightContext` | seif/rubert_decoder.py:107-116 | in a non-final window exactly the owned words have 64 subwords to the window's end or are its first word |
| `Windows.LeftContext` | seif/rubert_decoder.py:107-116 | in a later window exactly those words are kept that have 64 subwords before them in the window or were not yet written |
| `Windows.EndsAdvance` | seif/rubert_decoder.py:155-166 | a later window never ends earlier |
| `Windows.EdgesAdvance` | seif/rubert_decoder.py:155-166 | nor is its owned right edge further left |
| `Windows.NextStartTouches` | seif/rubert_decoder.py:165-166 | the next window starts after this one and not beyond its owned stretch; how far back it starts is `WindowPlans.PlanOverlaps` |
| `Windows.PlanIsGood` | seif/rubert_decoder.py:150-166 | every window fits 510 subwords and keeps a proper slice, left ≤ right ≤ length, of words with context |
| `Windows.PlanAdvances` | seif/rubert_decoder.py:150-166 | starts, ends and owned edges advance, no gap opens, an earlier window is overwritten only where there is left context, and the last window reaches the end; `WindowPlans.PlanIsPlan` says exactly where each window lies |
| `Windows.PlanCovers` | seif/rubert_decoder.py:150-169 | the windows together own every word |
| `Windows.LastOwnerDecides` | seif/rubert_decoder.py:161 | each word carries the prediction of the last window that owns it |
| `Windows.EveryWordWritten` | seif/rubert_decoder.py:167-168 | no word is left unwritten: the "omitted a word" error cannot happen |
| `WindowPlans.PlanIsPlan` | seif/rubert_decoder.py:87-166 | each window is as long as 510 subwords allow; the next repeats at least 128 subwords, and no more words than that takes, or starts one word further; each keeps exactly the words with 64 subwords of context on either side, plus its first word, the unwritten ones and those at the ends of the text |
| `WindowPlans.PlanIsUnique` | seif/rubert_decoder.py:87-166 | no other sequence of windows satisfies these clauses |
| `WindowPlans.OverlapGivesContext` | seif/rubert_decoder.py:150-166 | unless a window starts just one word after its predecessor, every word it keeps has 64 subwords in front of it in the window |
| `WindowPlans.PlanOverlaps` | seif/rubert_decoder.py:150-166 | consecutive windows of a text share at least 128 subwords unless they advance by one word, with the context that gives |
| `Decoder.PredictAt` | seif/rubert_decoder.py:133-159 | inside the loop each window yields its own prediction: a good window never exceeds the 512 positions that would be refused |
| `Decoder.PredictWords` | seif/rubert_decoder.py:150-169 | terminates, never fails, and returns the stitched owned slices of the windows of the plan |
| `Decoder.StitchedIsComplete` | seif/rubert_decoder.py:167-168 | the stitched output passes the completeness check for all counts in 1..510 |
| `Entities.BridgePunctuation` | seif/rubert_decoder.py:172-184 | the left-to-right update equals bridging all words at once on the original predictions: sentence punctuation between two words of one structured label takes that label and the lower score, every other word keeps its own |
| `Entities.GroupEntities` | seif/rubert_decoder.py:187-204 | one pass with an open entity equals cutting the words into maximal stretches of equal label |
| `Entities.EntitiesAreGrouped` | seif/rubert_decoder.py:187-204 | the entities are those of all maximal labelled runs, in order, each from its first to its last word with the run's label and mean score |
| `Entities.EntitiesAreValid` | seif/rubert_decoder.py:187-204 | entities are sorted, disjoint, nonempty, quote the text and score within [0, 1] |
| `Entities.LabelledWordsGrouped` | seif/rubert_decoder.py:187-204 | every labelled word lies in an entity of its label |
| `Entities.ValidateNative` | seif/rubert_ner.py:63-82 | accepts iff every item quotes the text with a native type and a probability and no two items share a character; returns them sorted |
| `Entities.AcceptedIffAcceptable` | seif/rubert_ner.py:63-82 | checking neighbours in sorted order decides whether any two items overlap |
| `Decoder.WordPredict` | seif/rubert_decoder.py:207-231 | the whole decoder as a function of the text, spelled out by `DecoderMeaning.DecodeSpelledOut`; only label inventory and tokenizer contract can fail it |
| `DecoderMeaning.DecodeSpelledOut` | seif/rubert_decoder.py:55-231 | a text with words is refused for its labels first, then for the tokenizer's answer; otherwise dropped words are outside, each other word is read at its first subword by the last window of the plan that owns it, punctuation is bridged, and the labelled runs are the entities |
| `DecoderMeaning.SpelledOnce` | seif/rubert_decoder.py:55-231 | these clauses leave one result |
| `Decoder.DecodedIsAccepted` | seif/rubert_ner.py:63-82 | validation never rejects or reorders decoder output |
| `Decoder.PredictNative` | seif/rubert_ner.py:272-282 | validated prediction equals plain decoding |
| `Batch.BucketsSuffice` | seif/rubert_batch.py:77 | every bucket lookup succeeds |
| `Batch.BatchInputs` | seif/rubert_batch.py:74-91 | each row is its window's ids with specials, attended, then pad tokens, not attended, up to the length bucket; the batch has the smallest batch bucket |
| `Batch.RowReadsLikeSingle` | seif/rubert_batch.py:94-110 | a padded row reads like its window inferred alone |
| `Batch.PredictBatch` | seif/rubert_batch.py:94-110 | gives each of its windows the prediction it would get alone |
| `Batch.GroupWindows` | seif/rubert_batch.py:137-140 | the groups are a permutation of all windows; each window is in the group of the smallest of the five length buckets that holds it with its special tokens |
| `Batch.PredictChunk` | seif/rubert_batch.py:142-143 | moves exactly its windows, at most `max_batch`, from unpredicted to predicted |
| `Batch.PredictAll` | seif/rubert_batch.py:137-143 | every window ends predicted, each exactly once despite the regrouping |
| `Batch.LayWindows` | seif/rubert_batch.py:58-71 | lays out the same windows as the sequential loop |
| `Batch.DocumentWindows` | seif/rubert_batch.py:47-71 | a document's windows carry the tokens, positions and owned slices of the sequential decoder; fails iff tokenization does |
| `Batch.Replay` | seif/rubert_batch.py:144-149 | writing owned slices back in original order gives each document its own stitched output |
| `Batch.Finish` | seif/rubert_batch.py:113-119 | equals the end of the sequential decoder and cannot report an omitted word |
| `Batch.WordPredictBatch` | seif/rubert_batch.py:122-150 | for every list and allowed batch size: fails iff decoding some text alone fails, with the error of the first text the tokenizer fails or else the label error; otherwise returns for each text what decoding it alone returns |
| `BatchErrors.FirstTextAgrees` | seif/rubert_batch.py:133-137 | the first text the tokenizer fails reports the same error alone iff the labels are valid |
| `BatchErrors.ErrorsAgree` | seif/rubert_batch.py:133-137 | a failing batch reports the error at which decoding its texts in order stops iff the labels are valid or the tokenizer fails no text |
| `Witnesses.ErrorsDiffer` | seif/rubert_batch.py:133-137 | with wrong labels and a misaligned tokenizer, on the text "a" the batch reports the alignment and decoding alone the labels |
| `GraphContexts.AtMost25Shapes` | seif/rubert_batch.py:16-19 | no profile has more than 25 shapes |
| `GraphContexts.BatchGraphBackend.Run` | seif/rubert_batch.py:185-202 | accepts exactly profiled shapes, keeps the cap, never drops a context, falls back only for a new shape at the cap |
| `GraphContexts.BatchGraphBackend.FullCapNeverFallsBack` | seif/rubert_batch.py:157-202 | with cap 25 every batched call of a known length has a context or room for one |
| `GraphContexts.DecoderStaysWithinProfile` | seif/rubert_batch.py:77 | the batch bucket chosen for at most `max_batch` windows does not exceed `max_batch` |
| `Chunks.SplitChunks` | seif/ner.py:45-55 | terminates and yields the chunk sequence, or refuses bad dimensions |
| `Chunks.ChunksAdvance` | seif/ner.py:45-55 | the first chunk begins the text, each next one the overlap before the end of the one before; all are as long as the text allows, and the last is the first to reach its end |
| `Chunks.ParseEntities` | seif/ner.py:138-153 | refuses a bad reply, drops clipped items, shifts the others |
| `Chunks.DetectBatch` | seif/ner.py:160-171 | the spans of the pending chunks in input order, or failure if one fails |
| `Chunks.Detect` | seif/ner.py:173-189 | succeeds iff the dimensions are admissible and every chunk is answered with at most 2048 records, each of a wire kind, inside the chunk, within its length limit and with a probability; then reports exactly the items away from artificial edges |
| `Chunks.AllParsedMeans` | seif/ner.py:138-189 | the same of any list of chunks |
| `Chunks.ShortIsHeld` | seif/ner.py:146-150 | an entity shorter than the overlap lies away from the artificial edges of some chunk |
| `Chunks.OverlapMustExceedLimit` | seif/ner.py:146-150 | for texts beyond one chunk: all entities up to a length survive iff the overlap exceeds that length |
| `Chunks.DetectedAreHeld` | seif/ner.py:138-189 | the detected set is exactly the whole-text entities that some chunk holds away from its artificial edges |
| `Chunks.ChunkedEqualsWhole` | seif/ner.py:138-189 | with overlap above every entity length the detected set equals the whole-text set: nothing lost, nothing invented |
| `Chunks.DetectText` | seif/ner.py:173-189 | with 16000 characters and an overlap of 2080: fails iff some chunk is not well answered, and is complete for everything the wire contract admits |
| `Chunks.MaxEntityChars` | seif/ner_contract.py:19-23 | limits lie between 200 and the span maximum that the overlap is computed from |
| `Executor.BatchExecutor.Submit` | seif/ner_batching.py:33-40 | refused iff stopping or full, else queued last |
| `Executor.BatchExecutor.Cancel` | seif/ner_batching.py:14-15 | cancels exactly a future that has not started, tells the owner so, and leaves all others alone |
| `Executor.BatchExecutor.ShutDown` | seif/ner_batching.py:89-97 | sets the flags and, when cancelling, cancels and empties the queue |
| `Executor.BatchExecutor.Take` | seif/ner_batching.py:42-57 | moves the queue's front into the batch until the batch is full or the queue empty; the batch is closed iff it is full or the executor stops |
| `Executor.BatchExecutor.BeginStart` | seif/ner_batching.py:65-70 | with the lock: cancels the whole batch after a cancelling shutdown, else sets out to start its futures |
| `Executor.BatchExecutor.StartOneFuture` | seif/ner_batching.py:70 | the next future runs and joins the model call, or, cancelled by its owner in the meantime, is left out of it; the last one ends the locked part |
| `ExecutorRuns.StepKeepsInv` | seif/ner_batching.py:33-99 | every step of every thread keeps queue, batch, status and ownership invariants |
| `ExecutorRuns.ReturnKeepsOwn` | seif/ner_batching.py:73-87 | what the model call returns at a position goes to the future whose text stood there; an error goes to a future only from a failed call on its text |
| `ExecutorRuns.RunIsSafe` | seif/ner_batching.py:33-99 | in every run: queue within capacity, batch within size, futures taken in submission order, all settled when the worker has left |
| `ExecutorRuns.OwnAnswer` | seif/ner_batching.py:74-87 | with a row-wise model each completed future holds the answer to its own text |
| `ExecutorRuns.RaisedOnlyOnFailure` | seif/ner_batching.py:73-84 | a future ends with an error only if a call on its text threw it, or answered no list or one of another length, reported as a wrong count |
| `ExecutorResults.ReplyIsDelivered` | seif/ner_batching.py:73-87 | once a call has replied, each of its futures ends with the value at its own position, the error thrown or the wrong count; until then it is running and the worker delivering |
| `ExecutorResults.DoomedByFatal` | seif/ner_batching.py:78-84 | the worker dies, after handing out the error, iff a call raised something fatal |
| `ExecutorResults.CancelledByOwnerOrShutdown` | seif/ner_batching.py:65-97 | a future is cancelled by its owner or once a cancelling shutdown was asked for, and in no other way |
| `ExecutorResults.CancellingShutdownCancels` | seif/ner_batching.py:65-97 | after a cancelling shutdown every future not yet taken is cancelled, and a taken batch is cancelled instead of started |
| `ExecutorRuns.RunOnward` | seif/ner_batching.py:65-99 | outcomes never change, cancelled futures never run, and after a cancelling shutdown none starts |
| `ExecutorRuns.CompletedAtMostOnce` | seif/ner_batching.py:74-87 | no future is completed twice or after cancellation |
| `RunWitnesses.CancelBetweenStarts` | seif/ner_batching.py:65-70 | a run in which an owner, between two starts, fails to cancel the first future and cancels the second, which then never runs |
| `ExecutorRuns.WorkerCanMove` | seif/ner_batching.py:42-87 | the worker is never stuck while there is work or a shutdown, if model calls end |
| `ExecutorRuns.ShutdownIsBounded` | seif/ner_batching.py:89-99 | once stopping, the worker takes at most a bounded number of steps |
| `ExecutorRuns.QuietMeansGone` | seif/ner_batching.py:42-99 | when a stopping worker has no step left it has left, with every future settled, or it died of a fatal error |
| `WeightedCycle.Cycle.constructor` | scripts/benchmark_corpus.py:140-143 | every case starts with one visit, as far into its first slot as its random number says |
| `WeightedCycle.Cycle.Next` | scripts/benchmark_corpus.py:145-149 | returns the case of the least visit time, the first of several, and moves only that case, as far into its next slot as the next random number says |
| `WeightedCycle.KeysNeverDecrease` | scripts/benchmark_corpus.py:145-149 | draw keys never decrease |
| `WeightedCycle.Fairness` | scripts/benchmark_corpus.py:132-149 | at a draw with key t a case has been drawn floor(weight·t) times or once more, before and after the draw |
| `WeightedCycle.BlocksArePermutations` | scripts/benchmark_corpus.py:132-149 | with equal weights each aligned block of draws visits every case exactly once |
| `TokenBucket.Limiter.Authorize` | seif/app.py:313-319 | the balance grows by rps a second up to rps and pays one token for an admission, which is given iff it holds a whole token; keeps every bucket within [0, rps], leaves other tenants alone, and admits first and spaced calls |
| `TokenBucket.CallIsExact` | seif/app.py:313-319 | below the cap, balance after plus admission equals balance before plus growth; at the cap it is rps |
| `TokenBucket.TenantsAreIndependent` | seif/app.py:313-319 | a tenant's bucket depends on its own calls alone |
| `TokenBucket.BalanceBounded` | seif/app.py:313-319 | the balance stays within [0, rps] |
| `TokenBucket.RateIsBounded` | seif/app.py:313-319 | at most rps·(t2−t1)+rps calls are admitted between two moments |
| `TokenBucket.SpacedCallIsAdmitted` | seif/app.py:313-319 | a call at least 1/rps after the tenant's previous one is never refused |
| `TokenBucket.BurstAdmitsExactly` | seif/app.py:313-319 | of a burst at one instant exactly the first rps calls are admitted |

## Left out

- Regex recognisers, field grammars and the candidate filters before resolution: candidates are arbitrary nonempty spans inside the text.
- HTTP, Redis and Sentinel, file capture, Kubernetes scripts, settings parsing, metrics and logging; only the in-memory branch of the vault and of the rate limiter is modelled.
- AES-GCM, HMAC and the random source: identity, an injective function, and a supply of draws that do not repeat. The code compares a new token with the text only, so distinct tokens rest on that assumption.
- Network inference, softmax and the checks of logits' shape and type: a function from padded ids and attention to rows, and a reading of one row. Token type ids are constant zero and not modelled; a negative pad token is excluded by its type.
- The tokenizer beyond its per-word owners; the layout check of its special tokens is reduced to the length limit.
- Floating-point rounding: scores, clocks, weights and balances are reals.
- `_legacy_gateway`, `NATIVE_MAPPING` and the other decoder of `seif/rubert_ner.py`: table lookups and a different model contract.
- `_detect_large`, request authentication, payload limits and span selection by policy: single checks; the spans a request transforms are arbitrary.
- Entities, detected types and profile of a stored record: carried along, never read by the protocol.
- The NER client's timeouts, retries and capacity semaphore: each chunk gets one reply, possibly a failure.
- The loops that cancel all futures of a batch or queue are one step: another owner's `cancel` succeeds before, between and after them alike, so no answer depends on the order. Only polling could tell.
- Waiting in the batch worker: a deadline is a step that may happen whenever nothing is queued. After a fatal model error the worker is dead and queued futures stay pending; no completion is claimed for them.
- AddressTails.AddressTailFragments: states which fragments are produced, not their order, since resolution ignores it.
- Executor.BatchExecutor.Cancel: futures are indexes into a status list, so aliasing of future objects is not modelled.
- WeightedCycle.Cycle.Next: the heap is a set from which the least item is chosen; the array layout of `heapq` is not modelled.
- Words.WordsWithOffsets: the word pattern is modelled as maximal runs of characters that are neither space nor mark, which is what it matches.
- Protocol.Handler.Store: a detection or transformation failure is a separate step of the runs that answers "unavailable".
