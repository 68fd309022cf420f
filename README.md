# Span matching and scoring for GLiNER synonym evaluation, in Dafny

This project models the scoring engine of a harness that evaluates a span-extraction model (GLiNER) against an annotated biomedical corpus. The model is prompted with several phrasings ("synonyms") of each entity category, and with combinations of them. The engine compares the gold character spans of a category with the predicted spans and produces a TP / FP / FN / TN accounting. It also computes precision, recall and F1.

The modules follow the repository's files:

- `Spans`, `Utils`: half-open character spans and their position sets (`_span_to_set`). Also `jaccard`, the `compute_jaccard` variant, and `prf1`.
- `Matcher`, `Scoring`: the two-phase matcher. It is written inline four times in the source; here it is one `Match` method. The exact phase counts every predicted span found verbatim in gold. The partial phase gives each leftover prediction the first leftover gold span whose score reaches the threshold. Python's set iteration order is an arbitrary choice, so every property holds for every order. The scorer is a parameter:
  - the shared `jaccard`, which never fails;
  - the inline ratio of `evaluate_union_indiv.py` and `evaluate_intersection.py`, which divides by zero when both spans are empty.
- `EvaluationIndiv`, `EvaluateUnionIndiv`, `EvaluateIntersection`, `EvaluateUnion`: the four evaluators. They score, per category:
  - each synonym;
  - the union of the synonyms' predictions, over every combination of two or more synonyms;
  - the intersection of those predictions, over the same combinations;
  - the combined-prompt predictions, with separate exact and partial tallies.

  `Abbrev` holds their `abbreviate_combo`, the de-duplicated display labels and `safe_combo_name`.
- `Combos`: `itertools.combinations` order and counts.
- `Trace`: the trace extractor. It emits one record per TP, FP and FN, and one TN-count record. Its partial phase uses best-score matching.
- `AnalyseTraces`, `Org`: the per-code counting of traces and the status filter.
- `OverlapBySynonym`, `OverlapCombinations`, `PredictCombinations`: the overlap matrices and the combination enumerator. The model call is an input function.
- `Structure`, `DataLoader`, `FnData`, `EntitieToDef`, `BuildKb`, `GlinerJina`: the corpus reshapers, the knowledge-base grouper and the span enumerator.
- Python built-ins (`PyStr`, `PySort`, `Seqs`): `str` methods, `sorted`, and sequence helpers.

Where a docstring and the code disagree, the model follows the code. The docstring of `abbreviate_combo` in `src/evaluate_intersection.py` says `'anatomy__body part'` gives `'a_b'`. The code gives `'a_bp'` (`Abbrev.AnatomyBodyPart`). The `abbreviate_combo` of `src/overlap_combinations.py` does give `'a_b'` (`OverlapCombinations.AnatomyBodyPartFirst`).

`data_factory/entitie-to-def.py` unpacks each triple as `(start, code, end)`. It is modelled that way. For a `[start, end, label]` triple, the layout `data_factory/fndata.py:56` writes, the result is `[start, label, end]` with the label not mapped (`EntitieToDef.WrittenSwapsSpan`). `EntitieToDef.RewriteSpanIntended` is the `(start, end, code)` reading, given for comparison.

## Model

| member | source | states |
|---|---|---|
| Spans.SpanToSet | src/trace.py:27-28 | a position is in the set iff start ≤ i < end; the set has width max(0, end − start) elements; it is empty iff end ≤ start |
| Spans.RangeCard | src/trace.py:27-28 | `range(a, b)` has b − a elements when b > a, none otherwise |
| Spans.OverlapSets | src/evaluate_intersection.py:88 | the common positions of two spans form the span of their overlap; the union has \|p\| + \|g\| − overlap elements |
| Utils.Jaccard | src/utils.py:19-20 | the score lies in [0, 1]; it is 1 iff the sets are equal and non-empty; it is 0 iff they are disjoint, two empty sets included |
| Utils.ComputeJaccard | src/overlap_by_synonym.py:35-38 | the score lies in [0, 1]; it is 1 iff the sets are equal, two empty sets included; it is 0 iff they are disjoint and not both empty |
| Utils.JaccardVariantsAgree | src/overlap_combinations.py:24-27 | `compute_jaccard` equals `jaccard` unless both sets are empty, where they give 1.0 and 0.0 |
| Utils.JaccardSymmetric | src/utils.py:19-20 | both Jaccard variants are symmetric in their arguments |
| Utils.SpanJaccard | src/utils.py:19-20 | on two spans' position sets, the score is overlap / (\|p\| + \|g\| − overlap), and 0 when both are empty |
| Utils.JaccardRangeExamples | src/utils.py:19-20 | `range(0,5)` against `range(1,5)` scores 4/5; two disjoint non-empty ranges score 0 |
| Utils.Prf1 | src/utils.py:23-28 | tp = 0 gives three zeros; for non-negative counts, all three metrics lie in [0, 1]; for tp > 0, precision = tp/(tp+fp), recall = tp/(tp+fn) and f1 = 2tp/(2tp+fp+fn) |
| Utils.F1Closed | src/utils.py:24-26 | the harmonic mean of tp/(tp+fp) and tp/(tp+fn) is 2tp/(2tp+fp+fn), and lies in (0, 1] |
| Utils.Prf1Monotone | src/utils.py:23-28 | with fp and fn fixed, a larger tp never lowers precision or recall |
| Matcher.Score | src/evaluate_union_indiv.py:74 | the inline ratio fails (ZeroDivisionError) exactly when both spans are empty; otherwise it equals `jaccard` of the position sets |
| Matcher.ScorersAgree | src/evaluate_intersection.py:88 | when one span is non-empty, the inline ratio and the shared `jaccard` give the same score |
| Matcher.RaisesOnlyOnEmptySpans | src/evaluate_intersection.py:85-88 | a matcher run can raise only with the inline ratio, on an unmatched empty prediction against an unmatched empty gold span |
| Matcher.PairingOneToOne | src/evaluation_indiv.py:61-69 | in a pairing, two different predictions never share a gold span |
| Matcher.ExactPass | src/evaluation_indiv.py:53-58 | the exact pass pairs exactly the spans in both sets, each with itself, and counts \|pred ∩ gold\| hits |
| Matcher.FirstFit | src/evaluation_indiv.py:62-69 | the scan over candidate gold spans either finds one that reaches the threshold, or proves that none does, or meets a score that raises |
| Matcher.PartialStep | src/evaluation_indiv.py:61-69 | one prediction of the partial pass keeps the pairing one-to-one and above the threshold, or the pass raises |
| Matcher.PairingExtends | src/evaluation_indiv.py:66-68 | pairing a leftover prediction with a leftover gold span that reaches the threshold keeps a valid pairing |
| Matcher.Match | src/evaluation_indiv.py:50-73 | on success: the pairing is one-to-one; exact spans pair with themselves; other pairs reach the threshold; no leftover pair reaches it; exact = \|pred ∩ gold\|; exact + partial + fp = \|pred\|; exact + partial + fn = \|gold\|; on failure a score raised |
| Matcher.SharedNeverRaises | src/evaluate_union.py:55 | a matcher run with the shared `jaccard` never raises |
| Scoring.CountTrueNegatives | src/evaluation_indiv.py:28-33 | TN is the sum over documents of the distinct gold spans of the other categories |
| Scoring.ScoreCorpus | src/evaluate_union_indiv.py:53-82 | summed over the corpus: the exact hits are the spans shared by prediction and gold; TP + FP = Σ\|pred\|; TP + FN = Σ\|gold\|; TP is the number of pairs of per-document matchings that pair predictions with gold spans one to one, exact hits with themselves and the rest only above the threshold, leaving no unpaired prediction that passes against an unpaired gold span; a failure names a document where a score raised |
| Scoring.ScoreRow | src/evaluate_union_indiv.py:53-91 | unless the scorer raised on some document, the row holds the category, the name, TP from a maximal threshold matching per document, TP + FP = Σ\|pred\|, TP + FN = Σ\|gold\|, every exact hit as a TP, `prf1` of the counts and the category's TN |
| Scoring.ScoreRowShared | src/evaluation_indiv.py:38-84 | with the shared `jaccard` the row is always that scored row |
| Scoring.PassingPairCounted | src/evaluate_union_indiv.py:66-79 | a prediction scoring at least the threshold against the only gold span of a one-document corpus is always a TP, never an FP and an FN |
| Scoring.ScoreCorpusShared | src/evaluation_indiv.py:38-73 | with the shared `jaccard` the corpus roll-up always succeeds, with the same totals and the same per-document matchings behind TP |
| Corpus.PredSpansMembers | src/evaluation_indiv.py:48 | a span is predicted for a document iff some entry under the key has that text_id and span |
| Corpus.UnmentionedEmpty | src/evaluation_indiv.py:48 | a document that no entry mentions has no predicted span |
| Corpus.LookupByText | src/evaluate_union.py:27-29 | looking a document up in the grouped entries gives the same set as filtering the entries by text_id, or the empty set |
| Corpus.GroupByText | src/evaluate_union.py:27-29 | the grouping loop builds the per-text_id span sets |
| Corpus.CodeSpansMembers | src/evaluation_indiv.py:42-46 | a span is in a document's gold set of a category iff an entity of that category has that span |
| Corpus.CodeSpansAtMostEntries | src/evaluation_indiv.py:30-33 | the distinct spans of a category never outnumber its entity entries |
| Corpus.GroupedPerDoc | src/evaluation_indiv.py:40-48 | the predicted set of every corpus document, in corpus order |
| Corpus.ForeignEntriesIgnored | src/evaluation_indiv.py:40-48 | adding entries whose text_id is not in the corpus changes no document's predicted set |
| Corpus.TnAtMostEntries | src/evaluation_indiv.py:28-33 | the TN count never exceeds the number of other-category entity entries |
| Corpus.TnCountAppend | src/evaluation_indiv.py:29-33 | the TN count of a concatenated corpus is the sum of the parts' counts |
| EvaluationIndiv.SynonymJobLists | src/evaluation_indiv.py:24-35 | one job per (category, synonym), in configuration order |
| EvaluationIndiv.EvaluateSynonym | src/evaluation_indiv.py:35-84 | a synonym's row is scored against the predictions under `code__synonym`, with the category's TN: TP counts the pairs of a one-to-one, threshold-respecting, maximal matching per document under the shared `jaccard` |
| EvaluationIndiv.EvaluateCategory | src/evaluation_indiv.py:24-84 | one row per synonym of the category, in order, each scored as `EvaluateSynonym` states (TP from a maximal threshold matching), all with the same TN |
| EvaluationIndiv.EvaluateIndividualSynonyms | src/evaluation_indiv.py:15-86 | exactly one row per (category, synonym) in configuration order, each scored as its synonym's row, TP from a maximal threshold matching per document |
| EvaluateUnionIndiv.UnionOfMembers | src/evaluate_union_indiv.py:47-50 | a span is in the union iff some member set holds it |
| EvaluateUnionIndiv.UnionContainsMembers | src/evaluate_union_indiv.py:49 | the union contains every member set |
| EvaluateUnionIndiv.LoadSpansBySyn | src/evaluate_union_indiv.py:27-33 | for every synonym, the loaded per-document sets are those of its key's entries |
| EvaluateUnionIndiv.GatheredMembers | src/evaluate_union_indiv.py:48 | the sets gathered for a document are the members' predicted sets for it |
| EvaluateUnionIndiv.UnionByText | src/evaluate_union_indiv.py:45-50 | exactly the corpus text_ids get a set, and each is the union of the members' sets |
| EvaluateUnionIndiv.CombinedPreds | src/evaluate_union_indiv.py:45-61 | each corpus document's effective prediction is the union of the combination members' sets |
| EvaluateUnionIndiv.EvaluateCombo | src/evaluate_union_indiv.py:44-92 | a combination's row is scored against the union sets, with the category's TN: TP counts the pairs of a one-to-one, threshold-respecting, maximal matching per document under the inline ratio; unless a score raised |
| EvaluateUnionIndiv.EvaluateCategory | src/evaluate_union_indiv.py:24-92 | one row per combination of two or more synonyms, in `itertools.combinations` order, each scored as `EvaluateCombo` states (TP from a maximal threshold matching), unless a score raised |
| EvaluateUnionIndiv.EvaluateUnion | src/evaluate_union_indiv.py:16-94 | on success, one union row per (category, combination) in order, TP from a maximal threshold matching per document; on failure, some combination's scoring raised |
| EvaluateUnionIndiv.CategoryRowCount | src/evaluate_union_indiv.py:42-43 | a category of n synonyms has 2^n − n − 1 combinations |
| EvaluateUnionIndiv.UnionCoversMembers | src/evaluate_union_indiv.py:47-50 | every member's predicted set of a document is inside that document's union set |
| EvaluateIntersection.IntersectionOfMembers | src/evaluate_intersection.py:55-59 | for a non-empty combination, a span is in the intersection iff every member set holds it |
| EvaluateIntersection.IntersectionWithinMembers | src/evaluate_intersection.py:58 | the intersection is inside every member set |
| EvaluateIntersection.EmptyMemberEmptiesIntersection | src/evaluate_intersection.py:56-58 | a member with no prediction for the document empties the intersection |
| EvaluateIntersection.IntersectionWithinUnion | src/evaluate_intersection.py:58 | the intersection of the member sets is inside their union |
| EvaluateIntersection.IntersectionPredsWithinUnionPreds | src/evaluate_intersection.py:55-59 | for a category, combination and document, the intersection set is inside the union set of the union evaluator |
| EvaluateIntersection.IntersectionPredsInEveryMember | src/evaluate_intersection.py:55-59 | each document's intersection set is inside every member synonym's predicted set |
| EvaluateIntersection.IntersectionByText | src/evaluate_intersection.py:53-59 | exactly the corpus text_ids get a set, and each is the intersection of the members' sets |
| EvaluateIntersection.CombinedPreds | src/evaluate_intersection.py:53-72 | each corpus document's effective prediction is the intersection of the members' sets |
| EvaluateIntersection.EvaluateCombo | src/evaluate_intersection.py:51-106 | a combination's row is scored against the intersection sets, with the category's TN: TP counts the pairs of a one-to-one, threshold-respecting, maximal matching per document under the inline ratio; unless a score raised |
| EvaluateIntersection.EvaluateCategory | src/evaluate_intersection.py:23-107 | one row per combination of the category, in order, each scored as `EvaluateCombo` states (TP from a maximal threshold matching), all with the same TN |
| EvaluateIntersection.EvaluateIntersection | src/evaluate_intersection.py:14-109 | on success, one intersection row per (category, combination) in order, TP from a maximal threshold matching per document; on failure, some combination's scoring raised |
| EvaluateIntersection.DisplayLabels | src/evaluate_intersection.py:147-155 | the i-th label is the raw label when it occurs for the first time, and the raw label with suffix "-n" at its n-th occurrence |
| EvaluateIntersection.FirstOccurrenceUnchanged | src/evaluate_intersection.py:150-155 | a label's first occurrence is displayed unchanged |
| EvaluateIntersection.RepeatsDistinguished | src/evaluate_intersection.py:150-155 | two occurrences of the same raw label get different display labels |
| EvaluateIntersection.SuffixDiffers | src/evaluate_intersection.py:153 | different occurrence numbers give different suffixed labels |
| EvaluateUnion.EvaluateCombo | src/evaluate_union.py:23-80 | the row is scored against the combined-prompt key `code__combo`: tp_ex counts exact hits; tp_ex + tp_pa counts the pairs of a one-to-one, threshold-respecting, maximal matching per document under the shared `jaccard`; tp_ex + tp_pa + fp_pa = Σ\|pred\|; tp_ex + tp_pa + fn_pa = Σ\|gold\|; fp_ex = fp_pa; fn_ex = fn_pa; the metrics are `prf1` of both triples |
| EvaluateUnion.EvaluateCategory | src/evaluate_union.py:21-80 | one dual row per combination of the category, in order, each scored as `EvaluateCombo` states |
| EvaluateUnion.EvaluateUnion | src/evaluate_union.py:21-80 | one dual row per (category, combination) in order, each scored against its combined-prompt predictions as `EvaluateCombo` states |
| EvaluateUnion.PartialAtLeastExact | src/evaluate_union.py:68-69 | partial precision and recall are never below exact precision and recall |
| EvaluateUnion.ExactWhenContained | src/evaluate_union.py:45-50 | when every prediction is a gold span, every prediction is an exact hit |
| EvaluateUnion.NoPartialWhenContained | src/evaluate_union.py:45-65 | then there is no partial hit and the exact and partial metrics coincide |
| Abbrev.Initials | src/evaluate_union_indiv.py:108 | one lower-cased initial per word |
| Abbrev.AbbreviatePartLetters | src/evaluate_union_indiv.py:105-110 | a part abbreviates to the lower-cased initials of its whitespace-separated words, one per word |
| Abbrev.TwoWordPart | src/evaluate_union_indiv.py:105-108 | a two-word synonym keeps both initials |
| Abbrev.SplitOnJoin | src/evaluate_union_indiv.py:102 | splitting a `"__"`-joined combination key gives back its synonyms when they hold no `_` |
| Abbrev.AbbreviateComboKey | src/evaluate_union_indiv.py:102-112 | the key of a combination abbreviates to its synonyms' abbreviations joined with `_` |
| Abbrev.OneWordTwoWords | src/evaluate_intersection.py:112-124 | a one-word and a two-word synonym give the initial, `_`, and both initials |
| Abbrev.AnatomyBodyPart | src/evaluate_intersection.py:112-124 | `"anatomy__body part"` abbreviates to `"a_bp"` |
| Abbrev.SafeComboName | src/evaluate_intersection.py:265 | the file-name form holds no space, `/` or `\` |
| Abbrev.SafeComboNameKeepsClean | src/evaluate_intersection.py:265 | a name without `__`, space, `/` or `\` is left unchanged |
| Combos.Combinations | src/evaluate_union_indiv.py:43 | there are C(n, k) combinations of size k |
| Combos.CombinationsSound | src/evaluate_union_indiv.py:43 | every combination has size k and keeps the declared order of the synonyms |
| Combos.CombinationsComplete | src/evaluate_union_indiv.py:43 | every order-preserving selection of size k is enumerated |
| Combos.CombosBetween | src/predict_combinations.py:25-27 | the sizes lo..hi give Σ C(n, k) combinations |
| Combos.CombosBetweenSound | src/predict_combinations.py:25-27 | every enumerated combination has a size in lo..hi and keeps the declared order |
| Combos.CombosBetweenComplete | src/predict_combinations.py:25-27 | every order-preserving selection with a size in lo..hi is enumerated |
| Combos.AllSizes | src/evaluate_intersection.py:50-51 | the binomial counts of all sizes sum to 2^n |
| Combos.SizesFromTwo | src/evaluate_intersection.py:50-51 | the sizes 2..n give 2^n − n − 1 combinations |
| Combos.FiveSynonyms | src/evaluate_intersection.py:50-51 | five synonyms give 26 combinations |
| Trace.Similarity | src/trace.py:167 | the score of two spans lies in [0, 1] |
| Trace.ChosenIsBest | src/trace.py:164-169 | the candidate the scan keeps is the first of strictly greatest eligible score among the distinct unmatched gold spans |
| Trace.BestAmongUnique | src/trace.py:164-169 | at most one gold span is the first of strictly greatest eligible score, so the scan's choice is determined |
| Trace.BestGold | src/trace.py:164-169 | the chosen gold span reaches the threshold with a score above 0; its score is the greatest; no earlier candidate ties it; none chosen means no candidate is eligible |
| Trace.RemoveAt | src/trace.py:174 | removing the chosen gold span leaves the other leftover spans, still distinct |
| Trace.GoldOfSpans | src/trace.py:108-123 | the gold map's keys are the distinct gold spans of the category |
| Trace.PredOfSpans | src/trace.py:112-124 | the prediction map's keys are the distinct predicted spans of the category |
| Trace.MapKeys | src/trace.py:123-124 | both maps have one key per distinct span, listed without repetition |
| Trace.ExactPhase | src/trace.py:135-154 | one exact TP record per span in both maps, with the gold and predicted fields of that span |
| Trace.PartialPhase | src/trace.py:158-194 | the records carry exactly the pairs of `PartialPairs` over the leftover predictions in `pred_map` order: each prediction in turn takes the gold span of strictly greatest eligible score among those not taken by an earlier one (the first in `unmatched_gold` order on a tie), or nothing when none is eligible; each gold span is used once; after the phase no unmatched pair is eligible |
| Trace.PairedFollows | src/trace.py:162-174 | after a turn that pairs the prediction with the best eligible gold span left, the records carry exactly the `PartialPairs` pairs of the predictions handled so far |
| Trace.SkippedFollows | src/trace.py:162-172 | after a turn with no eligible gold span left, the records still carry exactly the `PartialPairs` pairs of the predictions handled so far |
| Trace.PairsTake | src/trace.py:162-174 | a prediction whose best eligible gold span among those not yet taken is g adds exactly the pair (prediction, g) to the specification |
| Trace.PairsSkip | src/trace.py:162-172 | a prediction with no eligible gold span left adds nothing to the specification |
| Trace.PartialOrderMatters | src/trace.py:158-174 | with threshold 0.7, predictions (0,10),(0,8) against gold (0,9),(2,10) give one partial pair, and the opposite prediction order gives two |
| Trace.SpuriousPhase | src/trace.py:196-209 | one FP record per unmatched predicted span, in map order |
| Trace.MissedPhase | src/trace.py:211-223 | one FN record per unmatched gold span, in map order |
| Trace.TnCountOf | src/trace.py:226-231 | the TN count is at most the number of other-category gold entries |
| Trace.DisjointSpans | src/trace.py:230 | two spans share no position iff the overlap is empty |
| Trace.NoPredictionsAllNegative | src/trace.py:226-231 | with no prediction of the category, every other-category span counts |
| Trace.MatchPhases | src/trace.py:132-223 | per (document, category): the records are the exact hits, then the partial pairs `PartialPairs` gives for the leftover predictions in `pred_map` order against the leftover gold in `gold_map` order, then the unmatched predictions in `pred_map` order, then the unmatched gold spans in `gold_map` order; #TP + #FP = distinct predicted spans; #TP + #FN = distinct gold spans; no TN; the exact hits are the spans in both maps |
| Trace.AddNegatives | src/trace.py:225-238 | exactly one TN record, holding the number of other-category gold spans clear of every prediction, is appended iff that number is positive; the count is at most the number of other-category entries |
| Trace.TraceCode | src/trace.py:106-238 | per (document, category): nothing is emitted when there is neither gold nor a prediction; otherwise the records of the four phases as `MatchPhases` states, followed by the TN record `AddNegatives` states; #TP + #FP = distinct predicted spans; #TP + #FN = distinct gold spans; the exact hits are the spans in both; at most one TN record, with 0 < count ≤ other-category entries |
| Trace.MissedDoc | src/trace.py:90-103 | a gold document without predictions gives one FN per gold entity, in order, each under its own category |
| Trace.CodesTraces | src/trace.py:106-118 | every gold category of the document is traced: its records, taken in order, are those `TraceCode` states (phase records, TN record, counts and exact hits), and every record names the document and a gold category |
| Trace.DocTraces | src/trace.py:82-118 | a document without gold yields nothing; a gold document without predictions yields one FN per gold entity, in order; otherwise every gold category has the records and counts `TraceCode` states; every record names the document and a gold category |
| Trace.ExtractAllEntityTraces | src/trace.py:46-240 | every record belongs to a gold document and a category found in gold; for every document and category, its records, in order, are those of its case: none (no gold), one FN per gold entity (no predictions), or the four phases, with the partial pairs taken in `pred_map` order as `PartialPairs` states, and the TN record |
| AnalyseTraces.CountByCode | src/analysetraces.py:40-56 | the counting loop computes the per-code tally, or the KeyError |
| AnalyseTraces.FailureSticks | src/analysetraces.py:42-56 | once an entry raises, later entries do not change the outcome |
| AnalyseTraces.TallyFails | src/analysetraces.py:50-56 | the count raises iff a well-formed entry has a status outside TP, FP, FN and TN |
| AnalyseTraces.TallyValues | src/analysetraces.py:40-56 | the codes counted are exactly those of well-formed entries; TP, FP and FN count their entries; TN sums the counts, 0 when absent |
| AnalyseTraces.Unseen | src/analysetraces.py:46-48 | a code in no well-formed entry has all-zero counts |
| AnalyseTraces.StatusName | src/trace.py:145 | every status the extractor writes is one of the four counted keys |
| AnalyseTraces.RenderedNeverFails | src/analysetraces.py:50-56 | counting the extractor's own traces never raises |
| Org.FilterGroup | src/org.py:36-48 | one text_id's traces: the kept traces are appended in order, and its weight is added to the filtered total |
| Org.FilterByStatus | src/org.py:30-48 | a text_id is in the output iff it keeps a trace; its list is exactly its kept traces in order; the totals are the input length sum and the weighted kept count |
| Org.KeptMembers | src/org.py:36-37 | a trace is kept iff it is in the input and its status is listed |
| Org.KeptAppend | src/org.py:34-48 | filtering distributes over concatenation, so order is preserved |
| Org.NoTnWeight | src/org.py:41-48 | without TN in the list, the filtered total is the number of kept traces |
| Org.OutputNameParts | src/org.py:55-56 | the name starts with `entity_evaluation_traces_`, ends with `_by_text_idnew.json`, and between them holds the `_`-joined statuses lower-cased character by character, so no upper-case ASCII letter |
| Org.DefaultOutputName | src/org.py:55-56 | `["FN","FP"]` gives `entity_evaluation_traces_fn_fp_by_text_idnew.json` |
| OverlapBySynonym.ExtractSpans | src/overlap_by_synonym.py:18-26 | the distinct spans under `code__synonym`, grouped by text_id |
| OverlapBySynonym.FlattenSpans | src/overlap_by_synonym.py:28-33 | the union of all the per-document sets |
| OverlapBySynonym.FlattenByText | src/overlap_by_synonym.py:28-33 | flattening the grouped sets gives all the entries' spans |
| OverlapBySynonym.SynonymMatrix | src/overlap_by_synonym.py:51-54 | each entry is `compute_jaccard` of its two sets; the matrix is symmetric, 1.0 on the diagonal, in [0, 1] |
| OverlapBySynonym.CategoryOverlap | src/overlap_by_synonym.py:44-54 | the category's matrix compares the synonyms' flattened span sets |
| OverlapCombinations.ComboKeyContains | src/overlap_combinations.py:33-35 | a key that passes the prefix filter holds `__`, so the name after it exists |
| OverlapCombinations.ExtractCombinationSpans | src/overlap_combinations.py:29-38 | the kept combination names, in key order, each with its spans pooled over documents |
| OverlapCombinations.ComboSpansShape | src/overlap_combinations.py:32-37 | the names are distinct; each name comes from a key starting with `code__`; its set is its last such key's spans |
| OverlapCombinations.CombinationMatrix | src/overlap_combinations.py:54-63 | each entry is `compute_jaccard` of its two sets; the matrix is symmetric, 1.0 on the diagonal, in [0, 1] |
| OverlapCombinations.FirstLetters | src/overlap_combinations.py:42 | one lower-cased first character per part |
| OverlapCombinations.AbbreviateTwo | src/overlap_combinations.py:40-42 | a two-synonym key keeps only the first character of each synonym |
| OverlapCombinations.AnatomyBodyPartFirst | src/overlap_combinations.py:40-42 | `"anatomy__body part"` gives `"a_b"` |
| OverlapCombinations.EmptyPartFails | src/overlap_combinations.py:42 | a key ending in `__` raises IndexError |
| OverlapCombinations.CategoryOverlap | src/overlap_combinations.py:48-66 | the combinations in key order, their pairwise matrix, and the labels, which succeed iff every key abbreviates |
| PredictCombinations.EnumerateCombos | src/predict_combinations.py:24-27 | the combinations of sizes MIN_COMB..max_comb in `itertools` order; `max_comb` falls back to the synonym count when MAX_COMB is unset or 0 |
| PredictCombinations.UnboundedEnumeration | src/predict_combinations.py:24-27 | without MAX_COMB, there are Σ C(n, k) combinations, and exactly the order-preserving selections of size ≥ MIN_COMB |
| PredictCombinations.PredictCombo | src/predict_combinations.py:35-49 | the entries of one combination, document by document, prediction by prediction |
| PredictCombinations.ComboEntriesShape | src/predict_combinations.py:41-49 | every recorded label is in the combination, and its entity text is the slice of its span |
| PredictCombinations.DocEntriesShape | src/predict_combinations.py:41-49 | a document's entries carry its text, a label of the combination and the span's slice |
| PredictCombinations.PredictCategory | src/predict_combinations.py:23-51 | one dump entry per combination of the category, in order |
| PredictCombinations.PredictAll | src/predict_combinations.py:23-51 | the dump is every category's block, in configuration order |
| PredictCombinations.BlockKeys | src/predict_combinations.py:30-32 | the i-th key is `code__` followed by the `__`-joined combination |
| Structure.EntityCodePrefix | src/structure.py:22-25 | the code is the text before the first `__`, or the whole key |
| Structure.EntityCodeOfKey | src/structure.py:22-25 | a key `code__rest` gives `code` back, when code holds no `__` and does not end in `_` |
| Structure.AddEntries | src/structure.py:28-46 | one key's entries extend the regrouped documents as the row-level description states |
| Structure.Transform | src/structure.py:13-49 | the regrouping computes the regrouped documents |
| Structure.TransformedDocs | src/structure.py:35-49 | one document per distinct text_id, in first-seen order; its entities are its entries, in input order |
| Structure.FirstEntryText | src/structure.py:35-37 | a non-empty text_id's document has the text of its first entry |
| Structure.TransformValidates | src/structure.py:126-140 | the entity count after regrouping equals the entry count before |
| DataLoader.LeadingDigits | data_factory/dataloader.py:14 | the longest prefix of ASCII digits |
| DataLoader.ExtractId | data_factory/dataloader.py:18-23 | ValueError iff the name does not start with a digit; otherwise a non-empty prefix of the name |
| DataLoader.ExtractIdMaximal | data_factory/dataloader.py:14-23 | the id is all digits and is followed by a non-digit or the end |
| DataLoader.ParseNat | data_factory/dataloader.py:38 | `int` reads back any number written in decimal |
| DataLoader.Chunks | data_factory/dataloader.py:37 | a coordinate list gives at least one `;`-separated chunk |
| DataLoader.Segment | data_factory/dataloader.py:37-43 | a parsed segment carries the line's label and the text slice of its span |
| DataLoader.ParseSegments | data_factory/dataloader.py:37-43 | the chunk loop gives one entity per chunk, or the first parse error |
| DataLoader.ParseAnn | data_factory/dataloader.py:26-44 | the line loop computes the file's entities, or the first error |
| DataLoader.SegmentFailureSticks | data_factory/dataloader.py:37-38 | after a failing chunk, later chunks do not change the error |
| DataLoader.AnnFailureSticks | data_factory/dataloader.py:30-43 | after a failing line, later lines do not change the error |
| DataLoader.IgnoredLine | data_factory/dataloader.py:31-32 | a line not starting with `T` after left-stripping adds nothing |
| DataLoader.FieldCountMatters | data_factory/dataloader.py:33 | a `T` line without exactly three tab fields raises |
| DataLoader.SegmentsShape | data_factory/dataloader.py:37-43 | one entity per chunk, all with the line's label and the text slice |
| DataLoader.AnnEntitiesShape | data_factory/dataloader.py:38-42 | every entity's text is the slice of its span |
| DataLoader.ExtractIds | data_factory/dataloader.py:48-51 | one id per file name, or the first ValueError |
| DataLoader.IdMap | data_factory/dataloader.py:48-51 | the dictionary comprehension has exactly the ids as keys |
| DataLoader.BuildSplit | data_factory/dataloader.py:47-67 | the id errors of `.txt` then `.ann` names propagate; otherwise the examples of the `.ann` ids in order |
| DataLoader.CollectExamples | data_factory/dataloader.py:53-67 | the pairing loop computes the examples |
| DataLoader.ExamplesFailureSticks | data_factory/dataloader.py:54-61 | after a failing file, later files do not change the error |
| DataLoader.ExamplesShape | data_factory/dataloader.py:53-67 | every example pairs an `.ann` id with its `.txt` text and parsed entities; an `.ann` without `.txt` is skipped; every paired id yields an example |
| FnData.WordRun | data_factory/fndata.py:6 | the longest run of `[A-Za-z0-9_]` characters |
| FnData.TokenLen | data_factory/fndata.py:6 | a token found at a position is non-empty and in bounds |
| FnData.OffsetsOrdered | data_factory/fndata.py:8-14 | the offsets are non-empty, in bounds, increasing and non-overlapping |
| FnData.Tokenize | data_factory/fndata.py:8-14 | the offsets of the scan, and tokens[i] is the slice of offsets[i] |
| FnData.BlankLineFirst | data_factory/fndata.py:6 | `"\n\n"` is taken as one token before `"\n"` |
| FnData.SingleCharacters | data_factory/fndata.py:6 | any other non-word, non-space character is a one-character token; word and space characters outside ASCII are skipped |
| FnData.WordTokensMaximal | data_factory/fndata.py:6 | every ASCII word token is a maximal run |
| FnData.StartTok | data_factory/fndata.py:22-23 | the first token whose start is ≥ the span start |
| FnData.EndTok | data_factory/fndata.py:25-26 | the last token starting before and ending by the span end |
| FnData.CharSpanToTokenSpan | data_factory/fndata.py:16-29 | the scan finds both tokens, or ValueError when either is missing |
| FnData.AlignedSpan | data_factory/fndata.py:16-29 | a span from token a's start to token b's end maps to (a, b) |
| FnData.OrderedStarts | data_factory/fndata.py:8-14 | token starts strictly increase and tokens do not overlap |
| EntitieToDef.Define | data_factory/entitie-to-def.py:27 | a known code becomes its definition; anything else passes unchanged |
| EntitieToDef.RewriteSpan | data_factory/entitie-to-def.py:25-28 | a triple read as (start, code, end) becomes [start, end, definition]; other lengths raise |
| EntitieToDef.RewriteAll | data_factory/entitie-to-def.py:23-30 | the rewrite keeps the number of triples and rewrites each |
| EntitieToDef.RewriteAllOk | data_factory/entitie-to-def.py:24-25 | the rewrite succeeds iff every triple has three elements |
| EntitieToDef.Example.Rewrite | data_factory/entitie-to-def.py:22-30 | the example's `ner` becomes the rewritten list, `[]` when absent; on an error it is untouched |
| EntitieToDef.RewriteFailureSticks | data_factory/entitie-to-def.py:24-25 | after a malformed triple, later triples do not change the error |
| EntitieToDef.ReplaceCodesWithDefinitions | data_factory/entitie-to-def.py:21-31 | the same list is returned, with every example rewritten in place; the run fails iff some example holds a malformed triple |
| EntitieToDef.RewriteSpanIntended | data_factory/entitie-to-def.py:25-28 | reading (start, end, code) instead: three elements succeed |
| EntitieToDef.IntendedKeepsOffsets | data_factory/entitie-to-def.py:25-28 | that reading keeps both offsets in place and maps the code |
| EntitieToDef.WrittenSwapsSpan | data_factory/entitie-to-def.py:25-28 | as written, `[start, end, label]` becomes `[start, label, end]` for every label with a definition, which differs from the intended `[start, end, definition]` |
| BuildKb.KbIdInjective | Conception_de_BD/build_kb.py:77 | two ids are equal iff their code and counter are |
| BuildKb.StagingStep | Conception_de_BD/build_kb.py:74-89 | one occurrence keeps the staging area equal to its description |
| BuildKb.AddMention | Conception_de_BD/build_kb.py:69-89 | a new concept gets the next per-code id and the mention as its label; the mention joins its concept's synonyms |
| BuildKb.AddSynonym | Conception_de_BD/build_kb.py:98-117 | a new concept starts with the synonym as label and as its only synonym; an existing concept gains it |
| BuildKb.StageMentions | Conception_de_BD/build_kb.py:57-89 | the mentions of one document extend the staging area |
| BuildKb.StageData | Conception_de_BD/build_kb.py:54-89 | the staging area after the whole corpus |
| BuildKb.StageSynonyms | Conception_de_BD/build_kb.py:97-117 | one entity type's synonyms extend the staging area |
| BuildKb.StageConfig | Conception_de_BD/build_kb.py:96-117 | all configured synonyms extend the staging area |
| BuildKb.MentionEventsShape | Conception_de_BD/build_kb.py:58-72 | mentions with an empty stripped text or code are skipped; the others are keyed by their lower-cased text |
| BuildKb.FirstSurfaceAt | Conception_de_BD/build_kb.py:80 | a concept's label is the surface of its key's first occurrence |
| BuildKb.RankBounds | Conception_de_BD/build_kb.py:77-86 | the counter of a concept is below its code's concept count, and differs between concepts of one code |
| BuildKb.IdsDistinct | Conception_de_BD/build_kb.py:77-113 | different concepts get different ids |
| BuildKb.ListOf | Conception_de_BD/build_kb.py:121 | the list holds each synonym exactly once |
| BuildKb.Finish | Conception_de_BD/build_kb.py:121 | the finished concept's synonyms are its set, distinct and sorted |
| BuildKb.Finalize | Conception_de_BD/build_kb.py:120-122 | one finished concept per key, in insertion order |
| BuildKb.BuildKnowledgeBase | Conception_de_BD/build_kb.py:35-128 | a missing or invalid file gives `[]`; otherwise one concept per key, sorted by id, with distinct ids, each describing its key |
| BuildKb.DistinctIds | Conception_de_BD/build_kb.py:125 | the sorted list still has distinct ids |
| BuildKb.PermutedDescriptions | Conception_de_BD/build_kb.py:125 | sorting keeps exactly one description per key |
| BuildKb.SortedConcepts | Conception_de_BD/build_kb.py:120-125 | the finished concepts sorted by `kb_id` form the knowledge base: one concept per key, sorted, distinct ids |
| PySort.Sort | Conception_de_BD/build_kb.py:125 | the result is sorted by the key, in Python's string order, and is a permutation of the input |
| PyStr.ZFill | Conception_de_BD/build_kb.py:77 | the number is left-padded with `0` to at least the width |
| PyStr.ZFillValue | Conception_de_BD/build_kb.py:77 | the zero-padded decimal is all digits and reads back as the number |
| GlinerJina.GeneratedIffCandidate | changement-encodeur/GlinerJina.py:93-94 | a pair is generated iff 0 ≤ start ≤ end < seq_len and end − start < max_length |
| GlinerJina.GeneratedOrdered | changement-encodeur/GlinerJina.py:93-94 | the pairs come in strictly increasing (start, end) order, so without repetition |
| GlinerJina.GeneratedCount | changement-encodeur/GlinerJina.py:93-94 | the count is Σ over starts of min(max_length, seq_len − start) |

## Left out

- File and JSON I/O, logging, `print`, plotting, spreadsheet export and command-line entry points. The models take the parsed JSON values and return the values the code would write.
- `round(…, 6)` and `round(…, 4)` on metrics and Jaccard scores: metrics are exact rationals (`real`), not floats.
- The model call of `src/predict_combinations.py` (`model.predict_entities`) is an input function, and model loading is not modelled. `changement-encodeur/GlinerJina.py` is modelled only through `generate_spans`.
- `str.lower` lowers ASCII letters only; Python also lowers other cased letters. `str.split()`, `str.strip()` and the regex class `\s` use the full `str.isspace()` set (`PyStr.IsSpace`). The tokenizer of `data_factory/fndata.py` takes its word class `\w` and its space class as parameters.
- DataLoader.LeadingDigits, DataLoader.ExtractId and DataLoader.ParseInt accept the ASCII digits `0`-`9` only, while Python's `\d` and `int()` also accept other Unicode decimal digits (`data_factory/dataloader.py:13`, `data_factory/dataloader.py:38`). ParseInt also rejects the `_` digit separators `int()` allows.
- `src/analysetraces.py` after line 58 (rendering the confusion matrices) is not modelled, and neither is `src/org.py` after line 56 (writing the output).
- `src/evaluate_intersection.py`: `save_metrics_and_plot` is modelled only through the display-label loop and `safe_combo_name`.
- EvaluateUnion.EvaluateUnion: the row keeps the six counters next to the metrics, while the source row holds only the six metrics. The file loading of lines 13-17 is not modelled.
- Scoring.ScoreCorpus: the partial pass walks `pred - matched_pred` and `gold - matched_gold` in CPython's set order, which depends on hashing. The model leaves that order open, so TP is the size of some matching the greedy pass can build (one-to-one, above the threshold, maximal), not of the one a given interpreter run would pick. The same holds for every row built on it.
- BuildKb.ListOf: the order of `list(set)` is left open. Only the sorted result is specified.
- EntitieToDef.ReplaceCodesWithDefinitions: requires the examples to be distinct objects. A list holding the same example twice, which Python would rewrite twice, is not modelled.
- `data_factory/fndata.py` after line 30 (the `chardet` decoding and the conversion script) is not modelled.
- `data_factory/dataloader.py`: the directory globbing and the loop over the `train`/`dev` splits are not modelled. The files are given as name/contents pairs.
- `str(text_id)` in `src/trace.py`: text ids are strings from the start.
