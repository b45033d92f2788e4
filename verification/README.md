# ProximaDB in Dafny

A model of the parts of ProximaDB where a wrong step is hardest to see: the conditional key
stores that guarantee uniqueness, the resolution of record versions, and the self-contained
algorithms of its retrieval benchmarks, from candidate pools through selectors, statistics
and answer scoring to streamed results. Every theorem is a statement over all inputs, all
runs or all reachable states.

## What is modelled

**Local key store** (`LittleEndian`, `WalFrames`, `LocalKeyStore`, `LocalKeyStoreTheorems`,
`LocalKeyStoreGenerations`, `LocalKeyStoreCrashes`, `LocalWalKeyStore`, `Crc32`). A write-ahead
log of framed records, version histories per key, reader guards and compaction. The store is a
state machine whose runs mix claims, deletions, reads, compactions, restarts and crashes at any
byte of an append, and a class whose methods do what the machine says. The checksum and the
UTF-8 test are arbitrary functions, except in `Crc32`, which has the store's own checksum.

**Object-store key store** (`ObjectKeyStore`, `ObjectKeyStoreTheorems`). Any number of clients
list, read and publish successor manifests; every interleaving is linearizable.

**Version resolution** (`MvccResolution`, `MvccBatches`, `MvccDeterminism`, `MvccResolver`). The
query path against the compaction path, with the unstable sort left free to order equal
records.

**Selectors** (`Ranking`, `Pools`, `Selectors`, `SelectorTheorems`, `Rearrangement`, `Metrics`,
`AnnMetrics`, `Harness`, `SelectorBed`, `Statistics`, `Comparisons`, `Promotion`, `Benchmark`,
`Fnv`). From two retriever rankings to a recommendation.

**Answers** (`Sentences`, `Tokens`, `Extraction`, `Answers`, `AnswerCeiling`, `QaTexts`, `QaBed`,
`QaWords`, `QaReach`, `QaAnswers`). From a selector's ranking to scored answers, and the
generated bed they are measured on.

**Streaming, codec and join** (`Streaming`, `StreamingChannel`, `VectorCodec`, `HashJoin`).

`Sequences`, `StableSort` and `Text` hold what the others share.

## How the source is read

- Scores are real numbers; rounding and NaN are not modelled.
- A hash map is a map whose iteration order is arbitrary: methods pick keys freely.
- A random generator is an arbitrary stream of draws; only the ranges it is asked for count.
- `log2(i + 2)` is any positive, strictly increasing discount.
- A float in the vector codec is its 32-bit pattern.
- Text is a sequence of characters and spans count characters. The source counts bytes; the
  terminators it cuts at are single bytes that never occur inside another character.
- `sort_by` is modelled by the list it returns, a stable sort; `sort_unstable_by` by any
  sorted permutation.
- A UTF-8 test is any test; that it accepts the empty string is used where a claim has to exist
  (`GenerationsRiseIff`).
- The channel is a FIFO of capacity 4. A receiver that is dropped discards what it held.

## Where the code and its documentation differ

The model follows the code.

- Opening a local store leaves a torn tail in the log and appends behind it. What then
  survives is decided by whether a frame is accepted at the tail
  (`LocalKeyStoreCrashes.RestartAfterAppends`); for corrupt tails that is never, for cut and
  short ones not before a length is reached, for every checksum (`CorruptTailLosesAll`,
  `CutTailLosesUntilReached`, `ShortTailLosesUntilReached`).
- The store is to enforce uniqueness. A restart on a torn log breaks it: a committed claim is
  lost and its key is handed out again, with the same generation (`ClaimedAgain`,
  `RunClaimsAgain`, and as a run `TwoHolders`). Uniqueness holds exactly if at every restart the
  last record replayed about each held key names its holder (`UniquenessIff`). Compacting after
  each crash is enough (`CompactionsHeal`, `ClaimsAreSeparated`).
- A generation is documented never to decrease for a key. In the local store it does not
  exactly if every restart replays a generation that reaches the highest handed out
  (`GenerationsRiseIff`). A failed append followed by a compaction can sweep that generation
  (`HoldLostIff`, `FailedAppendReusesGeneration`), and a torn tail can hide it, so that
  generations repeat (`ClaimedAgain`). The object store does not compare fences at all
  (`GenerationsRiseIffFencesRise`, `GenerationCanFall`).
- Compaction is documented to follow the rules of the query path. It picks the same version
  and creation time, but not always the same record (`SameRecordIffNoRival`), and resolving
  resolved records again drops objects (`SecondPass`). Its output is called deterministic by
  object id; ties can show (`MvccDeterminism.DeterministicIff`).
- The coverage ceiling and recall divide by different counts when a ground truth repeats an
  id (`Metrics.CeilingHoldsIff`).
- The retrieval of the gold document is called a ceiling no extractor can beat. It is one for
  span scores (`Answers.SpanCeiling`) and for text scores only under a condition on the other
  documents (`AnswerCeiling.ExactMatchCeilingIff`, `TokenCeilingIff`). The generated bed meets
  it for exact match (`QaAnswers.NotAnsweredElsewhere`).
- A leader without support is documented to yield no recommendation; the code returns one
  with confidence 0, and so does the model (`Promotion.Recommend`).
- The reachable share of the question bed is exact only with enough distractors
  (`QaReach.ReachIsExactIff`, `EnoughDistractorsIff`).

## Model

| member | source | states |
|---|---|---|
| `Ranking.RankIsCanonical` | benches/bench_selector_benchmark.rs:756-773 | every order of the same items with distinct ids, such as any hash order, ranks to the same list |
| `Ranking.SortDescends` | benches/selector_benchmark_data.rs:319-326 | sorting permutes the candidates into strictly descending score, then ascending id |
| `Ranking.RankTable` | benches/bench_selector_benchmark.rs:756-773 | ranks a score table: each key once with its score, strictly best first, numbered from 0, whatever order the table is read in |
| `Ranking.RanksUnique` | benches/bench_selector_benchmark.rs:756-773 | a score table has exactly one ranking |
| `Pools.UnionOf` | benches/selector_benchmark_data.rs:301-317 | the union holds each document once with its highest score, best first, Hybrid if it was listed twice |
| `Pools.MergeIsRight` | benches/selector_benchmark_data.rs:305-313 | the fold into the map keeps, per document, the maximum of its scores |
| `Pools.UnionIsCanonical` | benches/selector_benchmark_data.rs:301-317 | the union depends only on which candidates were listed, not on any order |
| `Pools.UnionIsSymmetric` | benches/selector_benchmark_data.rs:301-317 | swapping the two retrievers gives the same union |
| `Pools.HybridMeansBoth` | benches/selector_benchmark_data.rs:301-317 | with distinct ids per ranking, Hybrid marks exactly the documents both retrievers found |
| `Selectors.ApplySelector` | benches/bench_selector_benchmark.rs:431-463 | the emitted list is the one the strategy determines, for every strategy, configuration and noise stream |
| `Selectors.WeightedFusionOf` | benches/bench_selector_benchmark.rs:465-482 | ranks the sum of the weighted scores of both retrievers |
| `Selectors.RrfFusionOf` | benches/bench_selector_benchmark.rs:484-498 | ranks the sum of 1/(60 + rank + 1) over both retrievers |
| `Selectors.CascadeOf` | benches/bench_selector_benchmark.rs:503-529 | ranks the primary window, the secondary adding only inside it |
| `Selectors.CrossEncoderOf` | benches/bench_selector_benchmark.rs:535-559 | ranks the upstream head by the blend of its order and the noise |
| `SelectorTheorems.SelectionIsDeterministic` | benches/bench_selector_benchmark.rs:431-463 | two runs of a strategy on the same pool and noise emit the same list: no hash order shows |
| `SelectorTheorems.CascadeIsFilteredFusion` | benches/bench_selector_benchmark.rs:503-529 | a cascade in either direction is the weighted-fusion ranking filtered to the primary window, same scores and relative order, ranks renumbered |
| `SelectorTheorems.CascadeScore` | benches/bench_selector_benchmark.rs:503-529 | a cascade scores exactly the documents of its window, each with the sum of both retrievers' shares |
| `SelectorTheorems.RerankKeepsHead` | benches/bench_selector_benchmark.rs:535-559 | the reranker emits exactly the documents of the upstream head of length min(window, n), each once |
| `SelectorTheorems.PerfectRerankKeepsOrder` | benches/bench_selector_benchmark.rs:535-559 | at quality 1 the reranker emits the upstream head in its own order, for every noise |
| `SelectorTheorems.SelectorsDrawFromPool` | benches/bench_selector_benchmark.rs:431-559 | every strategy emits distinct documents of the union pool |
| `Rearrangement.BestPlacement` | benches/bench_selector_benchmark.rs:823-847 | strict rearrangement inequality: placing available gains and zeros never beats the gains in descending order, and ties only with that order |
| `Metrics.NdcgBounds` | benches/bench_selector_benchmark.rs:823-847 | NDCG@k of distinct results lies in [0,1]; for k >= 1 it is 1 exactly when the results start with the first min(n,k) relevant documents in order |
| `AnnMetrics.ComputeNdcg` | benches/recall_utils.rs:242-278 | the loops compute the sort-based NDCG whatever order the relevance map yields its values in |
| `AnnMetrics.SortNdcgBounds` | benches/recall_utils.rs:242-278 | for non-negative distances the sort-based NDCG lies in [0,1] and is 1 exactly when the results start with the highest relevances |
| `AnnMetrics.IdealIsCanonical` | benches/recall_utils.rs:258-270 | the sorted ideal gains do not depend on the order of the map |
| `Metrics.RecallUnderCoverage` | benches/bench_selector_benchmark.rs:780-804 | distinct pool documents have no more recall at any k than the pool has coverage |
| `Metrics.CeilingHoldsIff` | benches/selector_benchmark_data.rs:345-384 | recall divides by the set of relevant ids and the ceiling by the list: the bound holds for every selection exactly when the list repeats nothing or the pool covers nothing of it |
| `Harness.Evaluate` | benches/bench_selector_benchmark.rs:392-427 | ranks every query, or names the first query that lacks a pool or a ground truth and which of the two it lacks |
| `Harness.MeanRecallUnderCeiling` | benches/selector_benchmark_data.rs:339-350 | for every strategy, configuration, noise and k the mean Recall@k is at most the coverage ceiling |
| `SelectorBed.BuildRanking` | benches/selector_benchmark_data.rs:224-258 | the ranking is the sorted list of the drawn relevant documents and distractors |
| `SelectorBed.ListedDistinct` | benches/selector_benchmark_data.rs:221-258 | what a retriever draws, relevant documents and distractors together, does not repeat |
| `SelectorBed.GenerateBenchmarkData` | benches/selector_benchmark_data.rs:114-146 | the generated bed is one on which the coverage ceiling holds, with no document twice in a ranking |
| `SelectorBed.GeneratedIsGood` | benches/selector_benchmark_data.rs:114-179 | one ground truth per query without repeats, every query with a pool that is the union of its rankings |
| `Harness.CeilingByQuery` | benches/selector_benchmark_data.rs:356-384 | the ceiling, a mean over ground truths, is the mean coverage over the queries |
| `Harness.RerankRecall` | benches/bench_selector_benchmark.rs:535-559 | for k >= window the reranker's Recall@k is the upstream Recall@window, whatever its quality and noise |
| `Statistics.BootstrapCiOf` | benches/bench_selector_benchmark.rs:877-895 | computes the percentile interval of the resampled means for the given stream |
| `Statistics.SignFlipPOf` | benches/bench_selector_benchmark.rs:903-923 | counts the sign patterns whose mean reaches the observed one, and corrects by one |
| `Statistics.PValueRange` | benches/bench_selector_benchmark.rs:897-923 | the p-value is above 0 and at most 1 |
| `Statistics.PercentileMirror` | benches/bench_selector_benchmark.rs:926-938 | mirror law: the q-percentile of the negated, re-sorted values is minus the (1-q)-percentile |
| `Statistics.BootstrapNegate` | benches/bench_selector_benchmark.rs:877-895 | negating the values maps the interval (lo, hi) to (-hi, -lo), for every stream |
| `Statistics.SignFlipNegate` | benches/bench_selector_benchmark.rs:903-923 | negating the differences keeps the p-value, for every stream |
| `Comparisons.CompareSwap` | benches/bench_selector_benchmark.rs:604-662 | swapping the selectors negates the mean difference, mirrors the interval and keeps the p-value, the verdict and the winner |
| `Comparisons.MeanDifference` | benches/bench_selector_benchmark.rs:626-639 | over the same queries the mean paired difference is the difference of the means |
| `Comparisons.ComparePairwise` | benches/bench_selector_benchmark.rs:604-662 | the comparisons of all earlier-later pairs, three metrics each, in configuration order |
| `Comparisons.ListHolds` | benches/bench_selector_benchmark.rs:604-662 | the list holds the comparison of a pair and metric if and only if the pair is an earlier-later one |
| `Promotion.FindLeader` | benches/bench_selector_benchmark.rs:672-684 | the first selector with the highest mean Recall@100: all earlier ones are strictly lower |
| `Promotion.LeaderWins` | benches/bench_selector_benchmark.rs:686-707 | a Recall@100 comparison that involves the leader is significant exactly when it is won by the leader |
| `Promotion.Recommend` | benches/bench_selector_benchmark.rs:666-747 | the one recommendation is the first selector of maximal mean Recall@100 and loses no significant comparison; its confidence is positive exactly when every rival's p is below 0.05, and is then 1 minus the largest |
| `Benchmark.RunBenchmark` | benches/bench_selector_benchmark.rs:347-371 | fails exactly on no queries, a repeated name or an incomplete bed; otherwise reports all comparisons and one recommendation that passed the gate, also when a query is repeated |
| `Benchmark.MeasuresConsistently` | benches/bench_selector_benchmark.rs:392-427 | a repeated query gets the same row both times, so pairing by query id loses nothing |
| `Sentences.SentenceBounds` | benches/bench_answer_quality.rs:331-355 | the scan returns the split that the next two rows characterise |
| `Sentences.SplitIsRight` | benches/bench_answer_quality.rs:331-355 | bounds are in range, non-empty, trimmed, ordered and disjoint, cut after terminators only, and cover every character that is not white space |
| `Sentences.SplitIsUnique` | benches/bench_answer_quality.rs:331-355 | no other list of bounds has these properties |
| `Sentences.SentenceSplitsAlone` | benches/bench_answer_quality.rs:331-355 | splitting a returned sentence yields that sentence alone |
| `Sentences.SplitInvertsJoin` | benches/answer_quality_data.rs:119-139 | sentences that start non-blank and have one terminator, at the end, joined by single spaces, are split back in order |
| `Tokens.WordsInvertJoin` | benches/bench_answer_quality.rs:271-284 | splitting at white space inverts joining words with single spaces |
| `Tokens.NormalizedTokensAreTokens` | benches/bench_answer_quality.rs:261-284 | re-splitting the normalised answer gives back its tokens |
| `Tokens.NormalizeIsInjectiveOnTokens` | benches/bench_answer_quality.rs:261-284 | two texts normalise to the same string exactly when they have the same tokens in the same order |
| `Tokens.NormalizeTwice` | benches/bench_answer_quality.rs:261-277 | normalising a normalised answer changes nothing, for every character class with the letters a to z |
| `Tokens.TokenPrf` | benches/bench_answer_quality.rs:291-321 | precision, recall and F1 of the two token bags, with the empty cases |
| `Tokens.Consume` | benches/bench_answer_quality.rs:302-310 | the decrementing loop counts the multiset intersection |
| `Tokens.F1Formula` | benches/bench_answer_quality.rs:314-320 | precision and recall are the overlap's shares of the two sides and F1 is twice the overlap over the sum of the two lengths |
| `Tokens.F1Laws` | benches/bench_answer_quality.rs:291-321 | F1 is symmetric, in [0,1], 1 exactly for equal bags, and positive exactly for two empty sides or a common token |
| `Extraction.IouLaws` | benches/bench_answer_quality.rs:85-98 | IoU is symmetric, in [0,1], and 1 exactly for the same non-empty span |
| `Extraction.IouIsJaccard` | benches/bench_answer_quality.rs:85-98 | within a document IoU is the number of positions in both spans over the number in either |
| `Extraction.ExtractBestSentence` | benches/bench_answer_quality.rs:213-252 | chooses the earliest of the sentences with the highest query overlap among the first documents the corpus holds; nothing exactly when there is no sentence |
| `Extraction.Extract` | benches/bench_answer_quality.rs:152-252 | the answer of either extractor on a ranking |
| `Answers.ScoreOne` | benches/bench_answer_quality.rs:543-610 | reports the best-F1 scores of the extracted answer and whether the gold document was ranked |
| `Answers.BestOfLaws` | benches/bench_answer_quality.rs:575-596 | exact match is 1 exactly when some gold answer normalises to the prediction, F1 is the largest over the gold answers, and all scores come from one gold answer or are zero |
| `Answers.AgainstLaws` | benches/bench_answer_quality.rs:579-592 | every score lies in [0,1], and an exact match has F1 1 |
| `Answers.ExtractedFromRanking` | benches/bench_answer_quality.rs:172-252 | both extractors answer out of a ranked document that the corpus holds |
| `Answers.SpanCeiling` | benches/bench_answer_quality.rs:554-596 | with gold spans in the gold document, span_exact and span_iou are at most gold_doc_retrieved, for every ranking and both extractors |
| `Answers.MeanSpanCeiling` | benches/bench_answer_quality.rs:612-649 | the means of the span scores are at most the mean of gold_doc_retrieved |
| `AnswerCeiling.ExactMatchBeatsCeiling` | benches/bench_answer_quality.rs:390-391 | the stated ceiling fails for exact match: if another document is the answer sentence, both extractors match on a ranking without the gold document |
| `AnswerCeiling.CeilingReduces` | benches/bench_answer_quality.rs:390-391 | for each score, the ceiling holds on every ranking exactly when it holds on the rankings of one document |
| `AnswerCeiling.ExactMatchCeilingIff` | benches/bench_answer_quality.rs:390-391 | exact match stays under the ceiling on every ranking exactly when no other document yields a passage that normalises to a gold answer |
| `AnswerCeiling.TokenCeilingIff` | benches/bench_answer_quality.rs:390-391 | F1, precision and recall do so exactly when no other document yields a passage that shares a token with a gold answer, or is as empty as one |
| `AnswerCeiling.AgainstPositive` | benches/bench_answer_quality.rs:579-586 | F1 is above 0 exactly for a shared token or two empty texts, and precision and recall are above 0 with it |
| `AnswerCeiling.BestInOwnDocument` | benches/bench_answer_quality.rs:222-243 | the first best sentence of a ranking is the first best sentence of its own document |
| `QaBed.RankingLaws` | benches/answer_quality_data.rs:250-276 | the ranking is duplicate-free and strictly descending with scores in (0,1], and the gold document stands at the drawn depth, or last if there are fewer distractors |
| `QaBed.BuildPool` | benches/answer_quality_data.rs:195-246 | both rankings with the gold document placed, and their union |
| `QaBed.GenerateQaBed` | benches/answer_quality_data.rs:80-188 | builds every question with its located gold span, every document, every ground truth and query, every pool and the depth table |
| `QaTexts.FindSentence` | benches/answer_quality_data.rs:132-134 | finds the first sentence equal to the answer, and none exactly when there is none |
| `QaTexts.AnswerStandsAt` | benches/answer_quality_data.rs:121-139 | exactly one sentence of the generated gold document equals the answer, the one at the drawn index |
| `QaTexts.LocateGold` | benches/answer_quality_data.rs:132-139 | the gold span is always found and is the answer's place |
| `QaBed.GoldSpanIndexesAnswer` | benches/answer_quality_data.rs:302-318 | every question has a gold span that lies in its gold document and indexes the answer there |
| `QaReach.CascadeRetrieves` | benches/answer_quality_data.rs:250-276 | a vector-first cascade retrieves the gold document exactly when its window goes past the document's place |
| `QaReach.ReachIsExact` | benches/answer_quality_data.rs:289-295 | with enough distractors the mean gold_doc_retrieved of the cascade with window d is reachable_fraction(d), for every d |
| `QaReach.ReachIsExactIff` | benches/answer_quality_data.rs:287-295 | for any bed: never below the advertised share, and equal to it exactly when no gold depth is at or beyond a window larger than the number of distractors |
| `QaReach.EnoughDistractorsIff` | benches/answer_quality_data.rs:159-171 | the configuration guarantees this for all draws exactly when the depth limit is at most one more than the distractors |
| `QaReach.SpanScoresUnderReach` | benches/bench_answer_quality.rs:612-649 | on the generated bed no extractor's mean span scores beat reachable_fraction(d) on the cascade with window d |
| `QaAnswers.BestSentenceAnswersIff` | benches/bench_answer_quality.rs:213-252 | on the generated bed, for every ranking and read depth: the best-sentence extractor matches exactly and with the exact span if the gold document is among those it reads, and otherwise neither |
| `QaAnswers.NotAnsweredElsewhere` | benches/bench_answer_quality.rs:390-391 | on the generated bed no document but the gold one yields the answer to either extractor, so retrieval is a ceiling on exact match there |
| `QaAnswers.MeanAnswersAreReach` | benches/answer_quality_data.rs:287-295 | generator, cascade, extractor and scores together: the mean exact match, exact span and overlap of a cascade read to its end all equal reachable_fraction at its window |
| `QaAnswers.OtherDocument` | benches/answer_quality_data.rs:92-139 | every document but the question's own consists of sentences with at most one token of the query and without the attribute |
| `QaWords.TokensOfSentence` | benches/bench_answer_quality.rs:261-284 | the tokens of a sentence are its lowered words without the articles |
| `Streaming.TopIsBest` | benches/streaming_search_bench.rs:79-91 | the top-k list is ordered by score, ties by index, without repeats, and every vector left out comes after every one returned |
| `Streaming.OneShotHasHits` | benches/streaming_search_bench.rs:93-133 | one-shot and streamed search agree on ids and scores |
| `Streaming.ChunksLaws` | benches/streaming_search_bench.rs:190-198 | the batches hold the list in order and there are ceil(n/b) of them |
| `Streaming.ChunkSizes` | benches/streaming_search_bench.rs:190-198 | no batch is empty or over-full, and all but the last are full |
| `Streaming.BatchesAreChunks` | benches/streaming_search_bench.rs:190-198 | batching before or after the conversion to hits is the same |
| `Streaming.StreamingIterator.Next` | benches/streaming_search_bench.rs:153-163 | yields the first remaining batch and moves on, or nothing when none remains; a batch size of 0 yields nothing |
| `Streaming.StreamingSearch` | benches/streaming_search_bench.rs:106-141 | the iterator starts with the batches the channel form sends |
| `Streaming.Drain` | benches/streaming_search_bench.rs:248-256 | drawing the iterator to its end yields every batch in order and terminates |
| `StreamingChannel.EveryRunConserves` | benches/streaming_search_bench.rs:167-207 | in every state of every interleaving received, channel and unsent batches make up the list in order, at most 4 are buffered, and what was received is a prefix |
| `StreamingChannel.RunIsBounded` | benches/streaming_search_bench.rs:167-207 | every run is finite |
| `StreamingChannel.NoDeadlock` | benches/streaming_search_bench.rs:167-207 | nothing can move exactly when the sender has stopped and the receiver is done or gone |
| `StreamingChannel.FullRun` | benches/streaming_search_bench.rs:190-203 | a complete run delivers every batch or was cut by the receiver, who has a prefix, in at most two steps per batch and two more |
| `StreamingChannel.FullRunDelivers` | benches/streaming_search_bench.rs:167-207 | a complete run that was not cut delivers the ids and scores of the one-shot search in ceil(n/b) batches |
| `Fnv.Fnv1a` | benches/bench_selector_benchmark.rs:854-861 | the loop computes the 64-bit hash of the next rows |
| `Fnv.AbsorbIsBijective` | benches/bench_selector_benchmark.rs:856-859 | for a fixed byte a step is a bijection on 64-bit states, with the inverse of the odd multiplier |
| `Fnv.StatesStayApart` | benches/bench_selector_benchmark.rs:854-861 | different states stay different through a common suffix |
| `Fnv.OneByteApart` | benches/bench_selector_benchmark.rs:543-545 | query ids that differ in exactly one byte never get the same reranker seed |
| `VectorCodec.RawEncode` | benches/bench_23_codec_vector_base_xor.rs:222-231 | the nested loops write the rows value by value |
| `VectorCodec.RawDecode` | benches/bench_23_codec_vector_base_xor.rs:233-257 | the moving cursor reads the matrix, or reports the overflow or the wrong length |
| `VectorCodec.RoundTrip` | benches/bench_23_codec_vector_base_xor.rs:222-257 | decoding the encoding of a rectangular matrix restores it bit for bit, unless its size overflows |
| `VectorCodec.DecodedIsEncoded` | benches/bench_23_codec_vector_base_xor.rs:233-257 | decoding succeeds exactly on the right length and a size that fits, and encoding what it returns restores the bytes |
| `HashJoin.NestedCount` | benches/bench_22_multimodal_queries.rs:539-547 | how often the nested loop returns a pair: left occurrences times right occurrences, for equal ids |
| `HashJoin.HashCount` | benches/bench_22_multimodal_queries.rs:517-523 | how often the hash join returns a pair: right occurrences, if the left row is the table's row for the id |
| `HashJoin.TableIsLast` | benches/bench_22_multimodal_queries.rs:517-518 | the table holds every left id with its last row |
| `HashJoin.HashJoinIsPart` | benches/bench_22_multimodal_queries.rs:515-550 | the hash join returns a sub-multiset of the nested-loop join, for all inputs |
| `HashJoin.JoinsAgreeIff` | benches/bench_22_multimodal_queries.rs:515-550 | the two joins return the same pairs with the same multiplicities exactly when no id repeated on the left occurs on the right |
| `HashJoin.GeneratedJoinsAgree` | benches/bench_22_multimodal_queries.rs:151-168 | on generated records the two joins agree |
| `WalFrames.ReadPayloadInverts` | crates/storage/proximadb-cks-local/src/lib.rs:341-360 | decoding a payload inverts encoding it |
| `WalFrames.CutFrameRejected` | crates/storage/proximadb-cks-local/src/lib.rs:305-318 | a frame cut anywhere is rejected |
| `WalFrames.CrashKeepsPrefix` | crates/storage/proximadb-cks-local/src/lib.rs:294-339 | cut at any byte, the log replays to exactly the mutations whose frames are whole |
| `WalFrames.ReplayInverts` | crates/storage/proximadb-cks-local/src/lib.rs:263-339 | an uncut log replays to the records it was written from |
| `WalFrames.ReplayedIsWritable` | crates/storage/proximadb-cks-local/src/lib.rs:296-360 | whatever replay accepts the store could have written |
| `WalFrames.ReplayAppend` | crates/storage/proximadb-cks-local/src/lib.rs:285-339 | after an append the old records stay and replay goes on from the torn tail joined to the new bytes |
| `WalFrames.AppendsLostIff` | crates/storage/proximadb-cks-local/src/lib.rs:285-339 | bytes appended behind any tail are lost as a whole exactly when no frame is accepted at the tail |
| `WalFrames.CleanAppendsSurvive` | crates/storage/proximadb-cks-local/src/lib.rs:285-339 | any records appended to a log without a torn tail are recovered |
| `WalFrames.CutTailRejects` | crates/storage/proximadb-cks-local/src/lib.rs:308-315 | a tail that holds a length accepts nothing until that length is reached, for every checksum |
| `WalFrames.CorruptTailRejects` | crates/storage/proximadb-cks-local/src/lib.rs:308-315 | a tail long enough for its length and still rejected accepts nothing ever, whatever is appended |
| `WalFrames.ShortTailRejects` | crates/storage/proximadb-cks-local/src/lib.rs:308-315 | a tail of one to three bytes accepts nothing until the misread length is reached |
| `WalFrames.CrashTail` | crates/storage/proximadb-cks-local/src/lib.rs:294-339 | the tail a cut leaves is the cut part of the first frame that is not whole |
| `WalFrames.ShortTailMisreads` | crates/storage/proximadb-cks-local/src/lib.rs:308-315 | one frame whose length ends inside the misread field is always lost behind a short tail |
| `Crc32.ComputeCrc32` | crates/storage/proximadb-cks-local/src/lib.rs:50-62 | the nested loops compute the checksum that the next rows are about |
| `Crc32.OneByteShows` | crates/storage/proximadb-cks-local/src/lib.rs:50-62 | data with one byte changed never has the same checksum |
| `Crc32.OneByteRejected` | crates/storage/proximadb-cks-local/src/lib.rs:305-312 | a frame with one byte changed anywhere behind its length is rejected, whatever follows it |
| `Crc32.OneByteStopsReplay` | crates/storage/proximadb-cks-local/src/lib.rs:294-339 | a log with such a byte replays to exactly the records before the changed frame |
| `LocalWalKeyStore.ReplayFile` | crates/storage/proximadb-cks-local/src/lib.rs:296-339 | the scan rebuilds the version histories and the highest generation of the accepted records |
| `LocalWalKeyStore.LocalWalKeyStore.constructor` | crates/storage/proximadb-cks-local/src/lib.rs:90-105 | opening is replaying the log |
| `LocalWalKeyStore.LocalWalKeyStore.PutIfAbsent` | crates/storage/proximadb-cks-local/src/lib.rs:368-391 | conflict with the holder and its generation, or a new stamped, logged version |
| `LocalWalKeyStore.LocalWalKeyStore.Delete` | crates/storage/proximadb-cks-local/src/lib.rs:418-435 | a tombstone on a held key, nothing on a free one; reports failure exactly when the frame of a needed tombstone cannot be written |
| `LocalWalKeyStore.LocalWalKeyStore.GetAt` | crates/storage/proximadb-cks-local/src/lib.rs:136-139 | the holder of the last version not newer than the snapshot |
| `LocalWalKeyStore.LocalWalKeyStore.Pin` | crates/storage/proximadb-cks-local/src/lib.rs:123-131 | a reader is counted at the current clock |
| `LocalWalKeyStore.LocalWalKeyStore.Unpin` | crates/storage/proximadb-cks-local/src/lib.rs:223-233 | dropping a guard uncounts it and removes an empty count |
| `LocalWalKeyStore.LocalWalKeyStore.CompactLog` | crates/storage/proximadb-cks-local/src/lib.rs:145-184 | histories and log become the pruned ones, keys in any order |
| `LocalKeyStoreTheorems.RunSound` | crates/storage/proximadb-cks-local/src/lib.rs:88-208 | every run of claims, deletions, reads, compactions, crashes and restarts in which each restart finds a whole log keeps memory well formed: generations rise within a key, holders and tombstones alternate, every version has a record that can be written |
| `LocalKeyStoreTheorems.CompactionsHeal` | crates/storage/proximadb-cks-local/src/lib.rs:145-184 | each restart does find a whole log if after every crash a compaction comes before the next restart, for every checksum |
| `LocalKeyStoreTheorems.RunValid` | crates/storage/proximadb-cks-local/src/lib.rs:88-208 | a run without a torn append also keeps the log free of a tail and replaying to the histories |
| `LocalKeyStoreTheorems.ReachedIsValid` | crates/storage/proximadb-cks-local/src/lib.rs:88-208 | every state such a run reaches from an empty log has both |
| `LocalKeyStoreTheorems.CrashKeeps` | crates/storage/proximadb-cks-local/src/lib.rs:263-283 | a crash after any number of bytes of a frame, on a whole log: the reopened store has the histories of before, and the mutation in flight exactly if its frame was whole |
| `LocalKeyStoreTheorems.PruneInvisible` | crates/storage/proximadb-cks-local/src/lib.rs:250-261 | pruning changes no read at or above the watermark |
| `LocalKeyStoreTheorems.RepeatableRead` | crates/storage/proximadb-cks-local/src/lib.rs:120-139 | while its guard is held a reader sees the same holder of every key through any other steps |
| `LocalKeyStoreTheorems.ClaimsAreSeparated` | crates/storage/proximadb-storage-ports/src/conditional_key_store.rs:103-127 | over every run in which each restart finds a whole log, through compactions, crashes and restarts, two committed claims of a key have an effective deletion of it in between; TwoHolders shows what a restart on a torn log does |
| `LocalKeyStoreTheorems.ReachedClaimsAreSeparated` | crates/storage/proximadb-storage-ports/src/conditional_key_store.rs:103-127 | the same from an empty log for every run in which after each crash a compaction comes before the next restart |
| `LocalKeyStoreTheorems.RebuildInAnyOrder` | crates/storage/proximadb-cks-local/src/lib.rs:167-175 | the compacted log replays to the kept histories whatever order its keys were written in |
| `LocalKeyStoreGenerations.GenerationsRiseIff` | crates/storage/proximadb-storage-ports/src/conditional_key_store.rs:68-72 | open any log, take any run with crashes and restarts: at every point whatever may be written next is stamped above all handed out before, exactly when every restart replays a generation that reaches the highest handed out; asked of each key alone the condition is the same |
| `LocalKeyStoreGenerations.GenerationsRiseIffHeld` | crates/storage/proximadb-storage-ports/src/conditional_key_store.rs:68-72 | from an empty log without crashes: exactly when at every restart the histories still hold the highest generation handed out |
| `LocalKeyStoreGenerations.HoldLostIff` | crates/storage/proximadb-cks-local/src/lib.rs:145-184 | the step that loses it is a compaction of a store in which every key holding it is a tombstone below the watermark, and no other |
| `LocalKeyStoreGenerations.GenerationsRise` | crates/storage/proximadb-storage-ports/src/conditional_key_store.rs:68-72 | a consequence that is easy to check: generations rise over every run in which no append fails and each restart finds a whole log |
| `LocalKeyStoreGenerations.RestartRestores` | crates/storage/proximadb-cks-local/src/lib.rs:90-105 | a restart restores the histories, and the clock exactly when some version carries it |
| `LocalKeyStoreGenerations.CompactHighest` | crates/storage/proximadb-cks-local/src/lib.rs:250-261 | the highest generation the histories hold survives compaction exactly when a key that holds it is live or not below the watermark |
| `LocalKeyStoreGenerations.CompactThenRestart` | crates/storage/proximadb-cks-local/src/lib.rs:145-184 | after a compaction and a restart the clock resumes at the highest generation the histories held under exactly that condition |
| `LocalKeyStoreGenerations.CompactedClaimsRiseIff` | crates/storage/proximadb-cks-local/src/lib.rs:145-184 | after a compaction and a restart every committed claim is above the highest generation the histories held, exactly when a key holding that generation is live or it is not below the watermark |
| `LocalKeyStoreGenerations.SweptKeyGoesBack` | crates/storage/proximadb-cks-local/src/lib.rs:145-184 | otherwise the key that held it is handed a generation no higher |
| `LocalKeyStoreGenerations.ClockFallsIff` | crates/storage/proximadb-cks-local/src/lib.rs:90-105 | in any step the clock falls exactly at a restart of a store whose clock no version carries, unless a record in flight is recovered |
| `LocalKeyStoreGenerations.FailedAppendReusesGeneration` | crates/storage/proximadb-cks-local/src/lib.rs:195-207 | with one failed append in between, a generation of a key is handed out twice |
| `LocalKeyStoreCrashes.RestartAfterAppends` | crates/storage/proximadb-cks-local/src/lib.rs:90-105 | opening any log, any run of appends and reads, restart: the restart adds what replay makes of tail and appends; it shows the state before the run exactly when no frame is accepted at the tail, and the state after it if there is no tail |
| `LocalKeyStoreCrashes.RunAppends` | crates/storage/proximadb-cks-local/src/lib.rs:200-207 | a run of appends adds exactly its frames to the log and its versions to the histories |
| `LocalKeyStoreCrashes.CorruptTailLosesAll` | crates/storage/proximadb-cks-local/src/lib.rs:308-315 | behind a corrupt tail every later append is lost at the restart, in any number |
| `LocalKeyStoreCrashes.CutTailLosesUntilReached` | crates/storage/proximadb-cks-local/src/lib.rs:308-315 | behind a tail that holds a length every run of appends that stays short of it is lost |
| `LocalKeyStoreCrashes.ShortTailLosesUntilReached` | crates/storage/proximadb-cks-local/src/lib.rs:308-315 | behind a tail too short for a length every run of appends that stays short of the misread length is lost |
| `LocalKeyStoreCrashes.CrashLosesLaterAppends` | crates/storage/proximadb-cks-local/src/lib.rs:90-105 | after a crash inside a frame, behind its length, what the reopened store writes is lost until the log is as long as that frame was to be; the whole frames of before the crash stay |
| `LocalKeyStoreCrashes.CompactionHeals` | crates/storage/proximadb-cks-local/src/lib.rs:145-184 | a compaction before the restart removes the tail and saves what was appended |
| `LocalKeyStoreCrashes.CommitBehindTornTailIsLost` | crates/storage/proximadb-cks-local/src/lib.rs:368-391 | a claim behind any rejected tail reports success and is gone after the restart |
| `LocalKeyStoreCrashes.CommitSurvivesIff` | crates/storage/proximadb-cks-local/src/lib.rs:368-391 | on any log, a committed claim survives the restart exactly when the last recovered record about its key names its holder; so without a tail, and not with a tail that accepts no frame |
| `LocalKeyStoreCrashes.UniquenessIff` | crates/storage/proximadb-storage-ports/src/conditional_key_store.rs:103-127 | open any log, take any run with crashes and restarts: at every point every claim of a held key is refused in favour of the owner that committed it, exactly when at every restart the last record about each owned key that replay accepts names its owner |
| `LocalKeyStoreCrashes.ClaimedAgain` | crates/storage/proximadb-storage-ports/src/conditional_key_store.rs:103-127 | behind any tail that accepts no frame a claim commits, the store restarts, and a second claim of the key commits with the same generation |
| `LocalKeyStoreCrashes.RunClaimsAgain` | crates/storage/proximadb-storage-ports/src/conditional_key_store.rs:103-127 | any log, any run of appends: with a tail that accepts no frame every key the run took can be claimed again after the restart, without a tail every key keeps its holder |
| `LocalKeyStoreCrashes.TwoHolders` | crates/storage/proximadb-storage-ports/src/conditional_key_store.rs:103-127 | as a run from an empty log: a crash inside a frame, a claim, a restart and a second claim of the key, both committed and no deletion between |
| `LocalKeyStoreCrashes.RunSettled` | crates/storage/proximadb-cks-local/src/lib.rs:88-208 | every run, with crashes and restarts on torn logs, in which replay accepts nothing at a torn tail keeps memory and log well formed, and in agreement wherever there is no tail |
| `LocalKeyStoreCrashes.HealedIffNoTail` | crates/storage/proximadb-cks-local/src/lib.rs:90-105 | in such a run every restart finds memory and log in agreement exactly when each finds no torn tail |
| `ObjectKeyStoreTheorems.RunValid` | crates/storage/proximadb-cks-objectstore/src/lib.rs:75-206 | every interleaving of any number of clients keeps the manifests one sequential run and every answer explained by it |
| `ObjectKeyStoreTheorems.Linearizable` | crates/storage/proximadb-cks-objectstore/src/lib.rs:138-206 | each answer, lookups included, is the sequential store's at a version between call and return; every operation of the sequential run was published by a call between its start and return, each call publishes at most one and only publishing calls succeed; real-time order is respected |
| `ObjectKeyStoreTheorems.WinnersAreSeparated` | crates/storage/proximadb-storage-ports/src/conditional_key_store.rs:103-127 | between two committed claims of a key a delete of that key took effect |
| `ObjectKeyStoreTheorems.ExhaustionMeansProgress` | crates/storage/proximadb-cks-objectstore/src/lib.rs:146-171 | for each of the 32 versions after the one a call that gives up started from, another call published that version |
| `ObjectKeyStoreTheorems.GenerationsRiseIffFencesRise` | crates/storage/proximadb-storage-ports/src/conditional_key_store.rs:68-72 | no key's generation ever falls exactly when the fences of the published operations on each key never fall |
| `ObjectKeyStoreTheorems.RunGenerationsRiseIff` | crates/storage/proximadb-storage-ports/src/conditional_key_store.rs:68-72 | the same for what every interleaving publishes |
| `ObjectKeyStoreTheorems.SoloTakesEffect` | crates/storage/proximadb-cks-objectstore/src/lib.rs:138-172 | a call that applies and is not interfered with is published, from every reachable state |
| `ObjectKeyStoreTheorems.GenerationCanFall` | crates/storage/proximadb-cks-objectstore/src/lib.rs:155-166 | a run of two calls in which the later, lower fence is accepted and the generation falls |
| `MvccResolution.WinnerIsRight` | crates/horizontal/proximadb-mvcc-resolution/src/mvcc_resolution.rs:68-119 | the winner is none if a version expired or version 1 is missing, and otherwise the first record of the last version before a gap |
| `MvccResolution.WinnersAgree` | crates/horizontal/proximadb-mvcc-resolution/src/mvcc_resolution.rs:76-119 | the winning version and creation time do not depend on the order of the group |
| `MvccResolver.ResolveBatch` | crates/horizontal/proximadb-mvcc-resolution/src/mvcc_resolution.rs:50-128 | per object the winner of its records, and the live append-only records in input order |
| `MvccResolver.ResolveSortedBatch` | crates/horizontal/proximadb-mvcc-resolution/src/mvcc_resolution.rs:150-217 | the in-place sort, mask and retain compute one scan over some sorted copy |
| `MvccBatches.PathsAgree` | crates/horizontal/proximadb-mvcc-resolution/src/mvcc_resolution.rs:130-149 | compaction keeps a version of an object exactly when a query returns one, and the two agree on version and creation time, however the unstable sort orders equal records |
| `MvccBatches.ScanKeepsAppendOnly` | crates/horizontal/proximadb-mvcc-resolution/src/mvcc_resolution.rs:167-173 | compaction keeps exactly the live append-only records |
| `MvccBatches.QueryTakesFirst` | crates/horizontal/proximadb-mvcc-resolution/src/mvcc_resolution.rs:76-113 | a query breaks ties by input order |
| `MvccBatches.CompactionTakesEarliest` | crates/horizontal/proximadb-mvcc-resolution/src/mvcc_resolution.rs:150-158 | compaction breaks ties by the earliest update time |
| `MvccBatches.SameRecordIffNoRival` | crates/horizontal/proximadb-mvcc-resolution/src/mvcc_resolution.rs:130-149 | compaction keeps the very record a query returns, for every sort, exactly when no tied record was updated at or before it |
| `MvccDeterminism.DeterministicIff` | crates/horizontal/proximadb-mvcc-resolution/src/mvcc_resolution.rs:146-149 | the output is the same for every order the unstable sort may leave equal records in, exactly when no two different records tie in the sort and can both show |
| `MvccDeterminism.ScanSorted` | crates/horizontal/proximadb-mvcc-resolution/src/mvcc_resolution.rs:146-149 | the output is sorted by object id, version and times, and drawn from the input |
| `MvccBatches.SecondPass` | crates/horizontal/proximadb-mvcc-resolution/src/mvcc_resolution.rs:85-97 | a second pass keeps an object exactly when its surviving version is 1 |

## Left out

- The vector index, segments, memtables, query planning, codecs and services of the engine.
- Input and output errors, except that a record too large for its frame is refused.
- Buffered writes under the relaxed sync policy, apart from the cut of the log at any byte.
- 64-bit exhaustion of generations, manifest versions and reader counts.
- Hex names, manifest listing order and JSON in the object-store key store; `live_claims`.
- `compare_records` of the version resolver, which neither resolution path calls.
- Floating-point rounding, NaN, and the statistical quality of the generators.
- The in-place execution of the standard library's sorts; only their results are modelled.
- Which characters count as alphanumeric; the token laws hold for every such class, the results on the generated bed for every class with letters and digits and without the full stop and the question mark.
- The distributions the selector bed draws counts and scores from, its query vectors, latency figures, report text and CSV.
- Reciprocal rank, precision and the plain recall helpers, which are single expressions.
- `pool_recall_ceiling` at a cut-off k; the ceiling is modelled on the whole pool.
- Answer-quality comparisons between selectors, which repeat the selector comparisons, and the per-type means.
- `heap_select` and the other system benchmarks.
- ComputeNdcg (AnnMetrics): a distance of exactly -1, where the relevance is an infinite float, has no real value.
- ShortTailMisreads (WalFrames): is about one frame whose length ends inside the misread field; ShortTailRejects covers the others.
