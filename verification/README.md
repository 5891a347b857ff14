# lerot core in Dafny

lerot is an online learning-to-rank framework. A retrieval system shows a
ranked list of documents for a query. A simulated user clicks on it. The
system learns from those clicks or compares several rankers through them.

This project models the parts of lerot that carry that loop:

- **Probabilistic multileaving** (`lerot/comparison/ProbabilisticMultileave.py`).
  Several rankers contribute documents to one shown list, taking turns in an
  order drawn from shuffled pools. The clicks are then credited back to the
  rankers: a per-click probability matrix, per-ranker credits, and a
  competition ranking of the credits.
- **The ranker interface** those algorithms drive
  (`src/python/ranker/AbstractRankingFunction.py`). A ranker is initialised
  with its ranking of a query. It hands out its next unused document and can
  be told that another ranker already showed a document.
- **Probabilistic perturbation** (`lerot/perturbation`). Disjoint adjacent
  pairs of a ranking are exchanged at random. The dynamic perturbator adapts
  its swap probability to past feedback.
- **The perturbation learning system**
  (`lerot/retrieval_system/PerturbationLearningSystem.py`). It turns clicks
  on the shown pairs into a feedback ranking and loops over multiple clicks.
- **The baseline dueling-bandit sampler** (`lerot/sampler/BaselineSampler.py`).
- **The evaluation metrics**:
  - the tie-breaking sort and query averaging of `AbstractEval`;
  - the vertical-aware metrics PAK, IS, VS and VD;
  - the living-labs win/loss ledger.
- **The relevance user model** (`lerot/environment/RelevantUserModel.py`).
- **Two pieces of the experiment driver**: reading of evaluation arguments
  and query sampling.
- **The preference matrix** that the multileaving experiment script derives
  from credits.

Each stateful Python class is a Dafny `class` whose methods update its fields.
Each method is specified by a pure function of its inputs and prior state, and
lemmas prove what the source promises about those functions.

Three kinds of input stand in for things the source computes or draws:

- Randomness is a parameter: the shuffled pools, the coin and draws of the
  perturbator, the tie sample of the sort, the tie break of `get_winner` and
  the query draw.
- The ranking a ranker gives a query is an input.
- The feature-vector scores used by the learning system are inputs.

## Model

| member | source | states |
|---|---|---|
| Comparison.ProbabilisticMultileave.constructor | lerot/comparison/ProbabilisticMultileave.py:30-72 | The aggregate defaults to "expectation" when it is missing or empty. The three flags take the given values. |
| Comparison.Counts | lerot/comparison/ProbabilisticMultileave.py:91 | One document count per ranker: the length of its ranking. |
| Comparison.MinLength | lerot/comparison/ProbabilisticMultileave.py:91 | The list length is at most the requested length and at most every ranker's count. It equals one of them. |
| Comparison.InitAll | lerot/comparison/ProbabilisticMultileave.py:87-89 | Every ranker holds its ranking of the query and has nothing removed. |
| Comparison.ProbabilisticMultileave.Multileave | lerot/comparison/ProbabilisticMultileave.py:74-117 | The result is None exactly when there are no rankers and a positive length (the pop from an empty pool). Otherwise: the list and the assignment have the capped length; the assignment is a prefix of the shuffle schedule; each shown document is the first document of its assigned ranker not yet shown; the list has no duplicates; every ranker has removed exactly the shown documents it ranks. |
| Schedule.BuildSchedule | lerot/comparison/ProbabilisticMultileave.py:96-102 | The assignment loop gives None exactly when there are no rankers and a positive length. Otherwise it gives the first `length` entries of the draw schedule. |
| Schedule.DrawScheduleLength | lerot/comparison/ProbabilisticMultileave.py:99-102 | k refills of n rankers schedule k·n draws. |
| Schedule.DrawScheduleBlock | lerot/comparison/ProbabilisticMultileave.py:99-102 | Block b of the schedule is the b-th shuffle popped from the end, that is, reversed. |
| Schedule.ScheduleBlockFair | lerot/comparison/ProbabilisticMultileave.py:96-102 | Every block of n consecutive draws is a permutation of the rankers: each ranker gets exactly one turn. |
| Schedule.SchedulePartialBlock | lerot/comparison/ProbabilisticMultileave.py:96-102 | No ranker gets two turns within an incomplete block. |
| Comparison.Interleave | lerot/comparison/ProbabilisticMultileave.py:103-116 | Each pick is the next unused document of the selected ranker. The list stays duplicate-free. Every ranker has removed the shown documents it ranks. |
| Comparison.Draw | lerot/comparison/ProbabilisticMultileave.py:105-109 | `select.next()` returns the first document of the ranking not yet shown, and the ranker removes it. |
| Comparison.RemoveFromOthers | lerot/comparison/ProbabilisticMultileave.py:110-116 | After `rm_document` on the other rankers, every ranker's removed set is the shown documents it ranks. |
| Comparison.ProbabilisticMultileave.InferOutcome | lerot/comparison/ProbabilisticMultileave.py:119-150 | Without clicks: a tie (equal credits or rank 1 for all), and the rankers are untouched. With clicks: the rankers hold their rankings again, and the outcome is the credits (or their competition ranks) of the probability matrix. |
| Inference.TieOutcomeEqual | lerot/comparison/ProbabilisticMultileave.py:134-140 | The tie outcome gives every ranker rank 1, or equal credits summing to one. |
| Inference.ClickOutcomeShape | lerot/comparison/ProbabilisticMultileave.py:142-150 | A computed outcome has one entry per ranker. Credits sum to one, and ranks lie in 1..number of rankers. |
| Inference.ClickIds | lerot/comparison/ProbabilisticMultileave.py:133 | The click ids are exactly the positions whose click value is 1, in increasing order. |
| Comparison.ProbabilisticMultileave.GetRank | lerot/comparison/ProbabilisticMultileave.py:152-170 | The rank of each document: its first index in the ranker's ranking plus one, or None when the ranking lacks it. |
| Inference.RankOf | lerot/comparison/ProbabilisticMultileave.py:167-169 | None iff the document is not ranked. Otherwise a 1-based position holding the document, with no earlier occurrence. |
| Inference.Ranks | lerot/comparison/ProbabilisticMultileave.py:164-170 | One rank per document of the list, each its RankOf. |
| Comparison.ProbabilisticMultileave.ProbabilityOfList | lerot/comparison/ProbabilisticMultileave.py:172-197 | The array computation equals the probability-matrix function. That function fails where the source fails: a TypeError for a document unranked at or before the click, inf/nan for a zero denominator or a zero row sum, and an IndexError on no rankers. |
| Comparison.ProbabilisticMultileave.FillColumns | lerot/comparison/ProbabilisticMultileave.py:187-194 | The ranker loop fills column i with the sigmas of ranker i. It stops with the first failing entry, scanning rankers and then clicks. |
| Comparison.FillColumn | lerot/comparison/ProbabilisticMultileave.py:188-194 | The click loop for one ranker writes that ranker's column and leaves every other column unchanged. |
| Inference.ColumnsFailure | lerot/comparison/ProbabilisticMultileave.py:187-194 | A failure is the error of an entry before which every entry of the earlier rankers, and every earlier click of this ranker, succeeded. |
| Comparison.NormaliseColumns | lerot/comparison/ProbabilisticMultileave.py:195-196 | Normalising fails iff some row sums to zero. Otherwise it yields each row divided by its sum. |
| Comparison.NormaliseRows | lerot/comparison/ProbabilisticMultileave.py:195-196 | The row loop succeeds iff no row sums to zero, and then each entry equals the normalised row's entry. |
| Inference.NormalisedSumsToOne | lerot/comparison/ProbabilisticMultileave.py:196 | A normalised row sums to one. |
| Inference.SucceedingColumns | lerot/comparison/ProbabilisticMultileave.py:187-197 | Once all columns succeed, the matrix is rectangular. The result is the normalised rows, or a zero-row-sum failure. |
| Inference.ProbabilityRowsSumToOne | lerot/comparison/ProbabilisticMultileave.py:172-197 | A computed matrix has one row per click and one entry per ranker, and every row sums to one. |
| Inference.ProbabilityEntries | lerot/comparison/ProbabilisticMultileave.py:189-196 | Entry (j, k) of the matrix is ranker k's sigma for click j divided by the row's sum. |
| Inference.CreditsOfList | lerot/comparison/ProbabilisticMultileave.py:199-209 | The credit of ranker i is the average of column i. The zip truncates to the narrowest row. |
| Inference.CreditsSumToOne | lerot/comparison/ProbabilisticMultileave.py:199-209 | Credits of a matrix whose rows sum to one also sum to one. |
| Comparison.ProbabilisticMultileave.CreditsToOutcome | lerot/comparison/ProbabilisticMultileave.py:211-228 | The loop over the sorted credits gives each ranker its competition rank. |
| Inference.Outcomes | lerot/comparison/ProbabilisticMultileave.py:211-228 | One rank per ranker: one plus the number of rankers with strictly more credit. |
| Inference.GroupStart | lerot/comparison/ProbabilisticMultileave.py:219-226 | In the stable descending order, the first ranker of a run of equal credits gets rank p+1. |
| Inference.CompetitionRankBounds | lerot/comparison/ProbabilisticMultileave.py:219-226 | Ranks lie in 1..n, and a ranker with maximal credit has rank 1. |
| Inference.CompetitionRankMonotone | lerot/comparison/ProbabilisticMultileave.py:219-226 | Strictly more credit means a strictly better (smaller) rank. |
| Rankers.Ranker.constructor | src/python/ranker/AbstractRankingFunction.py:7-26 | A new ranker holds no ranking yet. |
| Rankers.Ranker.InitRanking | src/python/ranker/AbstractRankingFunction.py:35-37 | After init_ranking, the ranker holds the query's ranking with nothing removed, and it will return that ranking in order. |
| Rankers.Ranker.Next | src/python/ranker/AbstractRankingFunction.py:39-41 | next returns the first remaining document and removes it. None means nothing remains. |
| Rankers.Ranker.RmDocument | src/python/ranker/AbstractRankingFunction.py:55-57 | rm_document removes exactly that document from what remains. A document the ranker does not rank is ignored. |
| Rankers.UnusedAdvance | src/python/ranker/AbstractRankingFunction.py:39-41 | Removing the first remaining document leaves the rest of the remaining sequence. |
| Rankers.UnusedCount | src/python/ranker/AbstractRankingFunction.py:59-61 | The remaining documents number document_count minus the removed ones. |
| Perturbation.EffectiveLength | lerot/perturbation/AbstractProbabilisticPerturbator.py:32-35 | max_length is the document count, capped by the given maximum when there is one. |
| Perturbation.PerturbRanking | lerot/perturbation/AbstractProbabilisticPerturbator.py:24-59 | The result is the perturbation function of the ranking. The ranker has emitted exactly the first Emitted documents. |
| Perturbation.AddPairs | lerot/perturbation/AbstractProbabilisticPerturbator.py:46-54 | The pair loop emits the ranking with pair p exchanged exactly when draw p is below the swap probability. |
| Perturbation.AddPair | lerot/perturbation/AbstractProbabilisticPerturbator.py:48-54 | One iteration takes the next two documents: the append-then-insert emits them exchanged, the two appends in order. |
| Perturbation.AddTrailing | lerot/perturbation/AbstractProbabilisticPerturbator.py:57-58 | A list still short of max_length gets the next document. |
| Perturbation.PerturbedShape | lerot/perturbation/AbstractProbabilisticPerturbator.py:24-59 | A perturbed list is a permutation of the first Emitted documents, with max_length of them when that is at least one. The single-start flag is the negated coin; a single start keeps the first document, and an unpaired last document stays last. |
| Perturbation.SwappedEnds | lerot/perturbation/AbstractProbabilisticPerturbator.py:38-58 | The unpaired first and last documents keep their places. |
| PairSwap.SwappedPair | lerot/perturbation/AbstractProbabilisticPerturbator.py:46-54 | Pair p holds its two documents exchanged iff its flag is set. |
| PairSwap.SwappedOutside | lerot/perturbation/AbstractProbabilisticPerturbator.py:46-58 | Positions outside the pairs are unchanged. |
| PairSwap.SwappedPermutation | lerot/perturbation/AbstractProbabilisticPerturbator.py:46-58 | Exchanging pairs permutes the list. |
| PairSwap.SwappedIdentity | lerot/perturbation/AbstractProbabilisticPerturbator.py:46-54 | With no flag set, the list is unchanged. |
| PairSwap.CountSwapsOfSwapped | lerot/tests/test_perturbation.py:66-88 | count_swaps of a pair-exchanged list of distinct documents against the original succeeds. It counts exactly the exchanged pairs. |
| PairSwap.CountSwapsIdentical | lerot/tests/test_perturbation.py:66-88 | count_swaps of a duplicate-free list against itself is 0. |
| Perturbation.PerturbedProbZero | lerot/tests/test_perturbation.py:90-98 | With swap probability 0 and draws in [0, 1), the perturbed list is the unchanged ranking prefix. |
| Perturbation.PerturbedProbOne | lerot/tests/test_perturbation.py:100-110 | With swap probability 1 and draws below 1, every pair is exchanged. count_swaps reports (n - single_start) // 2, and the list differs from the ranking whenever there is a pair. |
| Perturbation.DynamicPerturbator.constructor | lerot/perturbation/DynamicProbabilisticPerturbator.py:26-35 | delta 0, the first swap probability as given, and no affirmativeness recorded. |
| Perturbation.DynamicPerturbator.Update | lerot/perturbation/DynamicProbabilisticPerturbator.py:37-47 | The affirmativeness (feedback score minus perturbed score) is added to the history. cum_affirm and t stay the history's sum and length. |
| Perturbation.DynamicPerturbator.GetSwapProb | lerot/perturbation/DynamicProbabilisticPerturbator.py:77-92 | Before any update: the first swap probability. After updates: delta minus the mean affirmativeness, divided by max_affirm unless that is zero. |
| Perturbation.DynamicPerturbator.Perturb | lerot/perturbation/DynamicProbabilisticPerturbator.py:67-75 | perturb is _perturb at the current swap probability. |
| Perturbation.DynamicPerturbator.RankerToList | lerot/perturbation/DynamicProbabilisticPerturbator.py:94-108 | The next ListLength remaining documents, in order, consumed from the ranker. None iff fewer remain. |
| Perturbation.ListLength | lerot/perturbation/DynamicProbabilisticPerturbator.py:101-104 | The document count, capped by the maximum when given. range() of a negative cap is empty. |
| Perturbation.RankerToListFresh | lerot/perturbation/DynamicProbabilisticPerturbator.py:94-108 | Right after init_ranking, ranker_to_list yields the first ListLength documents of the ranking. |
| LearningSystem.PerturbationLearningSystem.constructor | lerot/retrieval_system/PerturbationLearningSystem.py:33-72 | A fresh ranker and a fresh dynamic perturbator with the swap probability, the result cap stored, and no list presented. |
| LearningSystem.PerturbationLearningSystem.GetRankedList | lerot/retrieval_system/PerturbationLearningSystem.py:74-81 | The returned list is the perturbator's output, and the current ranking, single-start flag and query are recorded. |
| LearningSystem.PerturbationLearningSystem.Present | lerot/retrieval_system/PerturbationLearningSystem.py:78-80 | Records the shown ranking, its single-start flag and the query. |
| LearningSystem.PerturbationLearningSystem.GetFeedback | lerot/retrieval_system/PerturbationLearningSystem.py:137-164 | The feedback ranking of the current ranking under the clicks. |
| LearningSystem.ComputeFeedback | lerot/retrieval_system/PerturbationLearningSystem.py:137-164 | The loop builds exactly the feedback ranking. |
| LearningSystem.FeedbackPairs | lerot/retrieval_system/PerturbationLearningSystem.py:149-158 | The pair loop exchanges pair p exactly when its lower document was clicked and its upper one was not. |
| LearningSystem.ClickFlags | lerot/retrieval_system/PerturbationLearningSystem.py:150-152 | One flag per pair: the lower document was clicked and the upper one was not. |
| LearningSystem.FeedbackShape | lerot/retrieval_system/PerturbationLearningSystem.py:137-164 | The feedback ranking permutes the shown ranking. It keeps a single-start first document and an unpaired last document. |
| LearningSystem.FeedbackPair | lerot/retrieval_system/PerturbationLearningSystem.py:150-158 | Pair i of the feedback is exchanged iff clicks[i+1] is set and clicks[i] is not. |
| LearningSystem.FeedbackNoClicks | lerot/retrieval_system/PerturbationLearningSystem.py:150-158 | Without clicks, the feedback ranking is the shown ranking. |
| LearningSystem.PerturbationLearningSystem.UpdateSolutionOnce | lerot/retrieval_system/PerturbationLearningSystem.py:83-112 | Computes the feedback ranking and records one affirmativeness (feedback score minus shown score) in the perturbator. |
| LearningSystem.PerturbationLearningSystem.UpdateSolution | lerot/retrieval_system/PerturbationLearningSystem.py:114-132 | The loop makes one pass per click level, as many as the largest click count. It drains the clicks to zero and records one affirmativeness per pass, in order. |
| LearningSystem.DecrementClicks | lerot/retrieval_system/PerturbationLearningSystem.py:127-130 | Every nonzero click count drops by one. Zeros stay. |
| LearningSystem.ClicksLeft | lerot/retrieval_system/PerturbationLearningSystem.py:123-130 | After p passes, some click is left iff p is below the largest click count. |
| LearningSystem.Drained | lerot/retrieval_system/PerturbationLearningSystem.py:123-130 | When the loop stops, exactly the largest click count of passes ran and all clicks are zero. |
| Sampler.BaselineSampler.constructor | lerot/sampler/BaselineSampler.py:28-53 | Wins start at one everywhere, every listed pair has zero plays, and t is 1. The pairs are all ordered pairs of distinct arms, or only those against the champion when it is an arm. |
| Sampler.PlayPairsShape | lerot/sampler/BaselineSampler.py:40-49 | No arm is paired with itself, and the champion, when it is an arm, is always the second arm. |
| Sampler.PlayPairsNonEmpty | lerot/sampler/BaselineSampler.py:40-49 | The plays table has a pair iff there are at least two arms. |
| Sampler.IndexMap | lerot/sampler/BaselineSampler.py:35 | dict(zip(arms, range)) maps each arm to an index holding it, the last such when an arm repeats. |
| Sampler.BaselineSampler.GetArms | lerot/sampler/BaselineSampler.py:55-70 | Returns the least-played pair (the last such in scan order) and increments exactly its play count. |
| Sampler.LeastPlayedPair | lerot/sampler/BaselineSampler.py:57-65 | The nested scan with `<=` finds the least-played pair that is last in scan order. |
| Sampler.LeastPlayedUnique | lerot/sampler/BaselineSampler.py:57-65 | That pair is unique. |
| Sampler.BaselineSampler.UpdateScores | lerot/sampler/BaselineSampler.py:72-81 | Adds the score to exactly the (winner, loser) entry, increments t and returns the winner's index. |
| Sampler.BaselineSampler.GetWinner | lerot/sampler/BaselineSampler.py:83-90 | None exactly when there are no arms (the IndexError of `sort(scores)[-1]`); otherwise an arm whose row sum of wins is maximal, chosen among the tied ones by the tie break. |
| Sampler.WinnerOf | lerot/sampler/BaselineSampler.py:84-89 | The index computed from the wins matrix is the one WinnerIndex picks from the row sums. |
| Sampler.WinnerIndex | lerot/sampler/BaselineSampler.py:86-89 | The picked index has a maximal score. |
| Sampler.RowTotals | lerot/sampler/BaselineSampler.py:85 | The row sums of the wins matrix. |
| Sampler.Top | lerot/sampler/BaselineSampler.py:86 | The largest score. |
| Sampler.Ties | lerot/sampler/BaselineSampler.py:87 | Exactly the indices holding the top score, in increasing order. |
| Sampler.IndicesOf | lerot/sampler/BaselineSampler.py:87 | An index is listed iff its score equals the given value. The list is increasing. |
| Sampler.Largest | lerot/sampler/BaselineSampler.py:86 | An element that bounds every element. |
| Evaluation.Evaluator.constructor | lerot/evaluation/AbstractEval.py:28-30 | No previous solution and no previous score. |
| Evaluation.Evaluator.EvaluateAll | lerot/evaluation/AbstractEval.py:32-44 | The score is the mean of the per-query outcomes, and the solution weights and score are remembered. |
| Evaluation.Mean | lerot/evaluation/AbstractEval.py:39 | NaN exactly for no outcomes. |
| Evaluation.MeanWithin | lerot/evaluation/AbstractEval.py:39 | The mean lies within any bounds of the outcomes. |
| Evaluation.MeanConstant | lerot/evaluation/AbstractEval.py:39 | The mean of equal outcomes is that outcome. |
| Evaluation.TieKeys | lerot/evaluation/AbstractEval.py:60-68 | The tie keys fail iff the tie mode is unknown. Otherwise there is one key per document. |
| Evaluation.SortOrder | lerot/evaluation/AbstractEval.py:59-70 | Fails iff the tie mode is unknown. Otherwise a permutation of the zipped indices by descending score. Among equal scores, "first" keeps document order, "last" reverses it and "random" follows the sample, descending. |
| Evaluation.SortDocidsByScore | lerot/evaluation/AbstractEval.py:59-70 | The sorted docids are a permutation of the zipped docids, placed by that order. |
| KeySort.SortIndicesDescending | lerot/evaluation/AbstractEval.py:69 | Insertion sort of indices leaves them descending by (score, key). |
| KeySort.SortIndicesPermutation | lerot/evaluation/AbstractEval.py:69 | The sorted indices are a permutation of 0..k-1. |
| KeySort.SortApply | lerot/evaluation/AbstractEval.py:69-70 | Reading the docids through the sorted indices gives a permutation of the docids. |
| Verticals.Head | lerot/evaluation/PAKEval.py:35 | ranking[:c] with Python slice semantics, including negative c. |
| Verticals.PakCutoff | lerot/evaluation/PAKEval.py:29-31 | -1 or a cutoff past the end becomes the length. Any other cutoff is kept. |
| Verticals.PrecisionAtK | lerot/evaluation/PAKEval.py:28-45 | The counting loop and average give the mean per-vertical precision of ranking[:cutoff]. |
| Verticals.CountByVertical | lerot/evaluation/PAKEval.py:34-40 | The per-vertical total and relevant counters of the counted documents. |
| Verticals.VerticalsOf | lerot/evaluation/PAKEval.py:34-37 | The verticals seen, each once: exactly those with a document. |
| Verticals.Relevant | lerot/evaluation/PAKEval.py:39-40 | The relevant documents of a vertical number at most its documents. |
| Verticals.Precisions | lerot/evaluation/PAKEval.py:42 | Each per-vertical precision lies in [0, 1]. It is 1 iff all of the vertical's documents are relevant, and 0 iff none is. |
| Verticals.AveragePrecision | lerot/evaluation/PAKEval.py:42-45 | The average of the counters' precisions, or 0.0 when there is no vertical. |
| Verticals.MeanPrecision | lerot/evaluation/PAKEval.py:42-45 | The metric lies in [0, 1] and is 0 for no documents. |
| Verticals.MeanPrecisionAllRelevant | lerot/evaluation/PAKEval.py:34-45 | All counted documents relevant gives 1. |
| Verticals.MeanPrecisionNoneRelevant | lerot/evaluation/PAKEval.py:34-45 | No counted document relevant gives 0. |
| Verticals.VerticalPrecision | lerot/evaluation/ISEval.py:26-40 | The mean per-vertical precision of the non-Web documents of ranking[:cutoff], where -1 means the number of labels. |
| Verticals.NonWeb | lerot/evaluation/ISEval.py:32-33 | Only non-Web documents of the input, in order. |
| Verticals.SelectionPrecision | lerot/evaluation/VSEval.py:24-31 | 0 when no vertical is retrieved. None (KeyError) iff a retrieved vertical has no orientation. Otherwise a share in [0, 1]. |
| Verticals.SelectionPrecisionOne | lerot/evaluation/VSEval.py:28-31 | VS is 1 iff every retrieved vertical has orientation above 0.5. |
| Verticals.Retrieved | lerot/evaluation/VSEval.py:27 | The retrieved verticals never include Web. |
| Verticals.Oriented | lerot/evaluation/VSEval.py:30 | The oriented verticals are among those considered. |
| Verticals.SelectionRecall | lerot/evaluation/VDEval.py:24-32 | 0 when no vertical is oriented. None iff a retrieved vertical has no orientation. Otherwise a share in [0, 1]. |
| Verticals.SelectionRecallOne | lerot/evaluation/VDEval.py:27-32 | VD is 1 iff every oriented vertical is retrieved. |
| LivingLabs.LivingLabsEval.constructor | lerot/evaluation/LivingLabsEval.py:21-22 | The ledger starts empty. |
| LivingLabs.LivingLabsEval.UpdateScore | lerot/evaluation/LivingLabsEval.py:26-27 | The outcome is appended at the end. |
| LivingLabs.LivingLabsEval.GetWin | lerot/evaluation/LivingLabsEval.py:30-31 | The last outcome. None (IndexError) iff the ledger is empty. |
| LivingLabs.LivingLabsEval.GetPerformance | lerot/evaluation/LivingLabsEval.py:34-43 | The counting loop yields the ledger's performance. |
| LivingLabs.Wins | lerot/evaluation/LivingLabsEval.py:37-39 | Wins are zero iff no outcome is a win. |
| LivingLabs.Losses | lerot/evaluation/LivingLabsEval.py:37-41 | Losses are zero iff no outcome is a loss. |
| LivingLabs.WinsAndLosses | lerot/evaluation/LivingLabsEval.py:37-41 | Wins, losses and ties account for every outcome. |
| LivingLabs.Performance | lerot/evaluation/LivingLabsEval.py:34-43 | None iff nothing was won. Otherwise a value in (0, 1] times (wins + losses) equals wins, and it is 1 iff nothing was lost. |
| LivingLabs.TieKeepsPerformance | lerot/evaluation/LivingLabsEval.py:34-43 | Recording a tie leaves the performance unchanged. |
| LivingLabs.WinRaisesPerformance | lerot/evaluation/LivingLabsEval.py:34-43 | Recording a win makes the performance defined and never lowers it. |
| LivingLabs.LossLowersPerformance | lerot/evaluation/LivingLabsEval.py:34-43 | Recording a loss keeps it undefined or strictly lowers it. |
| UserModel.RelevantUserModel.constructor | lerot/environment/RelevantUserModel.py:33-40 | Stores the result limit. |
| UserModel.RelevantUserModel.Default | lerot/environment/RelevantUserModel.py:38-40 | The default limit is -1. |
| UserModel.ClickedPositions | lerot/environment/RelevantUserModel.py:44-46 | Every position is read iff the limit is negative or at least the length. Otherwise exactly `limit` positions are read. |
| UserModel.RelevantUserModel.GetClicks | lerot/environment/RelevantUserModel.py:42-49 | A zero vector of the list's length whose read positions hold their document's label. With no limit, it is the labels of the whole list. |
| Preferences.Experiment.constructor | lerot/comparison/test/script_ProbabilisticMultileave.py:39-41 | Stores the number of rankers. |
| Preferences.Pref | lerot/comparison/test/script_ProbabilisticMultileave.py:280-285 | 1 iff the row ranker has more credit, 0 iff less, 0.5 iff equal. |
| Preferences.PrefComplement | lerot/comparison/test/script_ProbabilisticMultileave.py:286-287 | The two preferences of a pair add up to one. |
| Preferences.Experiment.PreferencesFromCredits | lerot/comparison/test/script_ProbabilisticMultileave.py:268-288 | The full n×n matrix holds Pref of the two credits, mirrored entries add up to one, and the diagonal is 0.5. |
| Experiment.ParseInt | lerot/experiment/AbstractLearningExperiment.py:48 | int() succeeds iff the token is an optionally signed run of decimal digits. A negative value has a minus sign. |
| Experiment.ParseShowInt | lerot/experiment/AbstractLearningExperiment.py:48 | Every integer written in decimal reads back as itself. |
| Experiment.PairCount | lerot/experiment/AbstractLearningExperiment.py:47 | The xrange(1, len - 1, 2) loop covers every complete (key, value) pair after the name. |
| Experiment.PairsSucceed | lerot/experiment/AbstractLearningExperiment.py:47-48 | Reading the pairs succeeds iff every value token is an integer literal. |
| Experiment.PairsFailure | lerot/experiment/AbstractLearningExperiment.py:47-48 | A failure reports the first value token that is not an integer. |
| Experiment.PairsKeys | lerot/experiment/AbstractLearningExperiment.py:47-48 | The keyword names are exactly the key tokens. |
| Experiment.PairsLastValue | lerot/experiment/AbstractLearningExperiment.py:47-48 | A repeated key keeps its last value. |
| Experiment.PairsFailureSticks | lerot/experiment/AbstractLearningExperiment.py:47-48 | Once a value fails to parse, later pairs do not change the outcome. |
| Experiment.ReadEvaluation | lerot/experiment/AbstractLearningExperiment.py:41-57 | Fails iff the token list is empty or a value does not parse. Otherwise the name is the first token and "cutoff" is always a keyword. |
| Experiment.EvaluationKeywords | lerot/experiment/AbstractLearningExperiment.py:45-55 | The keywords are the key tokens plus "cutoff", each with its last value. The cutoff defaults to -1. |
| Experiment.TrailingTokenDropped | lerot/experiment/AbstractLearningExperiment.py:47 | A key without a value at the end is ignored. |
| Experiment.EvaluationArgs | lerot/experiment/AbstractLearningExperiment.py:41-57 | The loop computes exactly ReadEvaluation. |
| Experiment.LearningExperiment.constructor | lerot/experiment/AbstractLearningExperiment.py:58 | No query is cached. |
| Experiment.LearningExperiment.SampleQid | lerot/experiment/AbstractLearningExperiment.py:60-68 | "random": the drawn key. "fixed": key query_count mod length. "one": the cached key, drawn only on the first call. Any other method: None. |

## Left out

- Randomness. `random.shuffle`, `randint`, `random()`, `sample`, numpy's `shuffle` and `randrange` are replaced by inputs: shuffled pools, a coin, draws, a tie sample, a tie-break index and a query draw. The requires say only that each input has the shape the generator guarantees, for example a permutation.
- Argument parsing, `get_class`, logging and the instantiation of evaluation classes are not modelled. The constructors take the parsed values directly.
- Evaluation arguments arrive already split into tokens. `str.split()` is not modelled.
- Floating point. Reals stand for Python floats, with no rounding. In `probability_of_list`, the TypeError for a document unranked at or before the click and the inf/nan of a zero denominator or a zero row sum all become failures. The mean of no outcomes is NaN.
- The decay `float(n) / k ** 0.3` of `probability_of_list` is a parameter function `decay(n, k)`, because real powers are outside Dafny's arithmetic.
- Feature vectors and weights are not modelled:
  - `create_ranking_vector`, `update_weights` and the dot products of `update` and `_calc_max_affirm` are outside the model;
  - the affirmativeness is an input (feedback score, shown score);
  - max_affirm is an input of `GetSwapProb`.
- The ranker's own ranking of a query is an input. The concrete rankers' scoring and tie handling are not part of this model, because `AbstractRankingFunction` only declares the interface. The exhausted `next()` becomes None.
- Python 2 dictionary order. The plays table of `BaselineSampler` is assumed to iterate in ascending integer keys, as small ints do. The per-vertical precisions are summed in an order-independent way.
- `max_results` of the learning system defaults to infinity. That is `None`, meaning no cap.
- `LearningSystem.PerturbationLearningSystem.constructor`: `-l/--max_results` is parsed without a type, so a supplied cap reaches `min(ranker.document_count(), max_length)` as a string, and Python 2 orders every number before every string: the source never applies a supplied cap. `Some(k)` models the evidently intended integer cap k.
- `Comparison.ProbabilisticMultileave.Multileave`: with no rankers and a positive length, the source raises on `pool.pop()`. The model returns None.
- `Sampler.BaselineSampler.GetArms`: requires at least two arms. With fewer, the source indexes the plays table with None and raises KeyError.
- `Experiment.LearningExperiment.SampleQid`: requires a non-empty query list for "random", "fixed" and a first "one". The source raises in those cases.
- Labels are indexed by document id, so `Verticals.PrecisionAtK`, `Verticals.VerticalPrecision` and `UserModel.RelevantUserModel.GetClicks` require every read document id to index the labels. The source raises IndexError otherwise.
- `LearningSystem.PerturbationLearningSystem.UpdateSolution`: requires click counts that are not negative. With a negative count, the source loop would never end.
- `Perturbation.PerturbRanking`, `Perturbation.DynamicPerturbator.Perturb`: require the ranking to list each document once, as every ranker's ranking does.
- `Evaluation.SortOrder`: ties between equal (score, key) tuples are impossible because the keys are distinct. The docid is never compared.
- The CLI driver (`scripts/evaluation-experiment.py`), `LearningExperiment.run` beyond query sampling, `sgn` and `preference_error` of the experiment script, and the DCG, NDCG and RP metrics are not part of this model.
