# Recommender core: user kNN, ALS and NCF in Dafny

This project models the prediction and recommendation logic of three
recommenders from the Reco_Project repository, and proves properties of it:

- **user kNN** (`algorithms/user_KNN.py`):
  - the constructor's similarity-metric check;
  - `predict`, which is a similarity-weighted vote of the top-k raters of an
    item, both without and with the baseline (global mean plus user and
    item biases);
  - `topN`, which collects the items liked by the user's nearest neighbours,
    then either sorts them or samples among those scoring at least 4.
- **ALS** (`libreco/algorithms/ALS.py`):
  - the explicit `ALS_rating.predict`, which is the dot product clamped to
    [1, 5];
  - the implicit `ALS.predict`, which is a 0/1 label from the sigmoid of
    the dot product;
  - the `recommend_user` that both classes share;
  - the alternating-least-squares training loop for one latent factor, where
    each update is the closed-form scalar ridge solve.
- **NCF** (`libreco/algorithms/NCF.py`):
  - how `predict` reads the network's output;
  - how `recommend_user` turns the network's scores for all items into
    `n_rec` unconsumed items: it partitions, sorts, filters and cuts.

Modules:

| file | module | contents |
|---|---|---|
| `common.dfy` | `Common` | `Result`/`Option`, the error kinds, `Clamp` (numpy `clip` and `min(5, max(0, ·))`) |
| `data.dfy` | `Data` | the dataset: `train_user`/`train_item` dictionaries as per-id entry lists, the implicit-feedback arrays, the global mean |
| `ranking.dfy` | `Ranking` | Python's stable `sorted(..., reverse=True)`, top-k, the `{id: score}` dictionary, sampling without replacement, and the sorted-or-sampled tail shared by `topN` and `recommend_user` |
| `user_knn.dfy` | `UserKnn` | `userKNN`: constructor, `predict`, `topN` |
| `als.dfy` | `Als` | `ALS_rating` and `ALS`: `predict`, `recommend_user`, one-factor `fit` |
| `ncf.dfy` | `Ncf` | `NCF`: `predict`, `recommend_user` |

Reals are exact (`real`), not floating point. An exception that the code
catches becomes the value its `except` branch returns. One that escapes to
the caller becomes a `Result` error:
- `UnknownMetric` for the constructor's `ValueError`;
- `IndexOutOfRange` for an escaping `IndexError`, `KeyError` or `InvalidArgumentError`;
- `SingularSystem` for a singular `inv`;
- `PoolTooSmall` for `np.random.choice` without replacement from too few items;
- `KthOutOfBounds` for `np.argpartition`'s out-of-range `kth`.

The following enter as parameters:
- **Random choices** are a `draws` sequence.
- **The similarity matrix and baseline biases** are fields of the fitted model.
- **The trained network** is a pair of score functions.
- **Which tied positions `np.argpartition` keeps** is an `ids` argument that
  must satisfy `IsPartition`. `ArgPartitionIsPartition` shows that such an
  argument always exists.

## Model

| member | source | states |
|---|---|---|
| UserKnn.NewConfig | algorithms/user_KNN.py:8-19 | construction succeeds exactly for "cosine", "msd" and "pearson"; the chosen metric is the one named, k, min_support and baseline are kept, and any other name is rejected with that name |
| UserKnn.MetricNameRoundTrip | algorithms/user_KNN.py:12-17 | every metric is reached from its own name, so each accepted name maps to a distinct measure |
| UserKnn.Neighbours | algorithms/user_KNN.py:36 | the list comprehension: the lookup fails exactly when u or some rater id lies outside the similarity matrix; otherwise the j-th neighbour is the j-th rater, with its rating and `sim[u, v]`, so there is one neighbour per rater in dictionary order |
| UserKnn.Neighbourhood | algorithms/user_KNN.py:35-40 | there is no neighbourhood exactly when the item is unknown or the similarity lookup fails; every selected neighbour is a user of the similarity matrix |
| UserKnn.NeighbourhoodIsTopK | algorithms/user_KNN.py:36-37 | the neighbourhood holds min(k, raters) raters, drawn from the raters as a sub-multiset (no rater repeated beyond its occurrences), sorted by descending similarity, each a genuine rater with its similarity to u, and no rater left out is more similar than one kept |
| UserKnn.EffectiveNeighbourhood | algorithms/user_KNN.py:43-47 | raters with non-positive similarity still occupy top-k slots: the voters number min(k, raters with positive similarity) |
| UserKnn.NonPositiveVotesIgnored | algorithms/user_KNN.py:64-67 | removing the votes of non-positive similarity changes neither the weighted sum nor the weight total |
| UserKnn.DenSign | algorithms/user_KNN.py:43-47 | the weight total is non-negative, and positive exactly when some vote has positive similarity |
| UserKnn.WeightedMeanWithin | algorithms/user_KNN.py:64-69 | a positive-weight quotient `sim_ratings / sim_sums` lies within any band that holds every contributing rating |
| UserKnn.Estimate | algorithms/user_KNN.py:48-54 | a zero weight total (the ZeroDivisionError path) gives the fallback; otherwise the result lies in [0, 5] |
| UserKnn.VotesFor | algorithms/user_KNN.py:33-47 | there are no votes exactly when the neighbourhood is missing or, with baseline, `bu[u]` or `bi[i]` does not exist (the caught IndexError); otherwise the j-th vote carries the j-th neighbour's similarity and, as its value, the raw rating without baseline (offset 0), or with baseline the rating minus that voter's own baseline `bvi` (offset `bui`) |
| UserKnn.Predict | algorithms/user_KNN.py:33-74 | the prediction is the global mean or lies in [0, 5]; an unknown item, or a user/item without a bias in baseline mode, gives the global mean |
| UserKnn.PredictFallsBack | algorithms/user_KNN.py:48-54 | the global mean is returned whenever nobody votes (a failed lookup or no positive similarity among the top k); otherwise the prediction lies in [0, 5] |
| UserKnn.PlainPredictWithinRatings | algorithms/user_KNN.py:56-74 | without baseline, when some selected neighbour has positive similarity, the prediction is a weighted mean: it lies within any band inside [0, 5] that holds every such voter's raw rating |
| UserKnn.BaselinePredictWithin | algorithms/user_KNN.py:41-54 | with baseline, when some selected neighbour has positive similarity and every such voter's deviation `r - bvi` lies in [lo, hi], the prediction lies between the clamped `bui + lo` and the clamped `bui + hi` |
| UserKnn.SingleRaterPrediction | algorithms/user_KNN.py:33-74 | with a single positively similar rater, the prediction is that rater's rating clamped to [0, 5]; with baseline, it is u's baseline plus the rater's deviation from its own baseline, clamped |
| UserKnn.RankZero | algorithms/user_KNN.py:78-79 | the entry the slice `[1:k+1]` skips is a user with the highest similarity to u |
| UserKnn.NeighbourRanks | algorithms/user_KNN.py:78-79 | exactly min(k, n - 1) neighbours, with distinct ids, in descending similarity, each a real user carrying its similarity to u, none of them the rank-0 user |
| UserKnn.NeighbourRanksAreBest | algorithms/user_KNN.py:78-79 | a user that is neither rank 0 nor a neighbour is no more similar to u than any neighbour |
| UserKnn.NeighbourRanksCoverRow | algorithms/user_KNN.py:78-79 | when k + 1 reaches the number of users, every user other than rank 0 is a neighbour |
| UserKnn.SelfNotANeighbour | algorithms/user_KNN.py:79 | when u is strictly most similar to itself, dropping rank 0 removes u, and u is not among its own neighbours |
| UserKnn.LikedPositions | algorithms/user_KNN.py:81-85 | exactly the positions of a neighbour's row whose item the neighbour rated above 3 and u has not rated, in increasing order |
| UserKnn.FromNeighbour | algorithms/user_KNN.py:81-87 | every entry a neighbour contributes is an item u has not rated, paired with that item's score |
| UserKnn.FromNeighbourInOrder | algorithms/user_KNN.py:81-87 | a neighbour contributes one entry per kept position of its row, in row order: the t-th entry is the item at the t-th kept position with its score |
| UserKnn.FromNeighbourCounts | algorithms/user_KNN.py:81-87 | an item u has not rated appears once per entry of it rated above 3 in the neighbour's row; an item u has rated never appears |
| UserKnn.FromNeighbourMembers | algorithms/user_KNN.py:81-87 | an item is contributed only if the row rates it above 3, and every such item that u has not rated is contributed |
| UserKnn.Candidates | algorithms/user_KNN.py:80-87 | `rank` holds only items that u has not rated, each liked (> 3) by some neighbour and paired with its score; every such liked, unrated item of any neighbour is present |
| UserKnn.CandidatesCounts | algorithms/user_KNN.py:80-87 | `rank` holds an item u has not rated once per entry of it rated above 3 in the neighbours' rows together, and never an item u has rated |
| UserKnn.CandidatesAppend | algorithms/user_KNN.py:80-87 | `rank` follows neighbour order: over two runs of neighbours it is the first run's `rank` followed by the second's |
| UserKnn.CandidatesSnoc | algorithms/user_KNN.py:80-87 | the last neighbour's contribution comes at the end of `rank` |
| UserKnn.TopNCandidatesCount | algorithms/user_KNN.py:76-87 | `topN`'s `rank` scores every entry with `predict(u, j)`, and holds an item u has not rated once per entry of it rated above 3 in the rows of the neighbours at ranks 1..k |
| UserKnn.TopN | algorithms/user_KNN.py:76-98 | on the sorted path, exactly min(n_rec, |rank|) entries of `rank` in descending score, and no entry left out scores above one returned; on the random path, success exactly when n_rec distinct items score ≥ 4, returning n_rec distinct such items; every item returned is unrated by u, liked by a neighbour and scored by `predict`; an unknown u is an index error |
| Ranking.SortDesc | algorithms/user_KNN.py:97 | the result is a permutation of the input, sorted by descending key |
| Ranking.SortIsStable | algorithms/user_KNN.py:97 | elements with equal keys keep their input order, so the sort agrees with Python's stable `sort(reverse=True)` |
| Ranking.TopK | algorithms/user_KNN.py:37 | min(k, n) elements of the input, sorted by descending key |
| Ranking.TopKIsBest | algorithms/user_KNN.py:97-98 | no element left out of the top k has a higher key than one kept |
| Ranking.TopKCountAbove | algorithms/user_KNN.py:37-47 | the top k hold as many elements above a threshold as possible: min(k, how many the whole list holds) |
| Ranking.Qualifying | algorithms/user_KNN.py:89 | exactly the candidates scoring at least 4 |
| Ranking.DictPut | algorithms/user_KNN.py:89 | an insertion-ordered dictionary store: its keys gain the new key and stay unique, the new pair is present, and nothing else is added |
| Ranking.BuildDict | algorithms/user_KNN.py:89 | the dictionary built from the pairs has unique keys, exactly the keys of the pairs, and only values from them |
| Ranking.Pool | algorithms/user_KNN.py:89-91 | the sampling pool has one entry per qualifying id, each a candidate scoring ≥ 4 |
| Ranking.Sample | algorithms/user_KNN.py:93-94 | sampling n without replacement succeeds exactly when the pool has n entries, and returns n pool entries, distinct when the pool is |
| Ranking.SampleCanDrawAny | algorithms/user_KNN.py:93 | every selection of pool entries, in any order, is the outcome of some draws, so the model restricts the random choice no further |
| Ranking.Select | algorithms/user_KNN.py:88-98 | the sorted branch returns min(n_rec, |rank|) candidates in descending order, none outranked by a candidate left out; the random branch succeeds exactly when there are n_rec qualifying ids, and returns n_rec distinct candidates scoring ≥ 4 |
| Als.PredictExplicit | libreco/algorithms/ALS.py:59-65 | for known ids, the dot product when it lies in [1, 5], else the nearer bound; the global mean for an unknown id |
| Als.PredictExplicitIsNearest | libreco/algorithms/ALS.py:61-62 | the explicit prediction is the value in [1, 5] closest to the dot product |
| Als.PredictImplicit | libreco/algorithms/ALS.py:139-145 | for known ids, label 1 exactly when the dot product is non-negative and 0 exactly when it is negative; the global mean for an unknown id |
| Als.SigmoidThreshold | libreco/algorithms/ALS.py:141-142 | `1 / (1 + exp(-x)) >= 0.5` holds exactly when x ≥ 0, which justifies the sign test of `PredictImplicit` |
| Als.Predict | libreco/algorithms/ALS.py:59-65 | the explicit class predicts in [1, 5] and the implicit class predicts 0 or 1; both give the global mean off the tables |
| Als.UnratedBelow | libreco/algorithms/ALS.py:68 | the unrated items are exactly the ids below n_items that the user has not rated, listed in ascending order |
| Als.UnratedCount | libreco/algorithms/ALS.py:68 | the list holds each unrated item once: its length is the size of the unrated set |
| Als.Candidates | libreco/algorithms/ALS.py:68-75 | the rank holds exactly the unrated items, each once and with its clamped dot product; the per-item branch is never taken |
| Als.RecommendUser | libreco/algorithms/ALS.py:67-87 | an unknown user is an index error; every item returned is unrated and scored by its clamped dot product in [1, 5]; the sorted path returns min(n_rec, #unrated) distinct items of the unrated-item rank in descending order; the random path succeeds exactly when n_rec unrated items score ≥ 4, and returns n_rec distinct ones |
| Als.QualifyingAreUnratedAbove4 | libreco/algorithms/ALS.py:147-158 | the sampling pool is exactly the set of unrated items whose clamped score reaches 4 |
| Als.RecommendSortedIsBest | libreco/algorithms/ALS.py:147-167 | on the sorted path, every unrated item left out scores no higher than every item returned |
| Als.ImplicitScoresAreClampedDots | libreco/algorithms/ALS.py:139-155 | the implicit class ranks by the clamped dot product, not by its 0/1 `predict`: an item with a negative dot product has label 0 but recommendation score 1 |
| Als.Solve | libreco/algorithms/ALS.py:32-38 | the update succeeds exactly when every key has a factor row and `Σ q² + reg ≠ 0`; its value satisfies the normal equation `p (Σ q² + reg) = Σ r q`; a bad key is an index error, and a zero system is singular |
| Als.SolveRegularised | libreco/algorithms/ALS.py:35-36 | with reg > 0, every update whose keys all have factor rows succeeds |
| Als.LossExpand | libreco/algorithms/ALS.py:35-38 | the regularised squared loss of a factor value x equals `Σ r² − 2 x Σ r q + x² Σ q² + reg x²` |
| Als.NormalEquationMinimises | libreco/algorithms/ALS.py:35-38 | every solution of the normal equation minimises the regularised squared loss |
| Als.RidgeMinimiser | libreco/algorithms/ALS.py:32-38 | the closed-form update gives a loss no larger than any other factor value's |
| Als.FirstFailure | libreco/algorithms/ALS.py:31-38 | a half-epoch meets no failure exactly when every present row's system can be solved and its id has a factor slot; a failure is an index error or a singular system, and a singular one needs reg ≤ 0 |
| Als.Swept | libreco/algorithms/ALS.py:31-38 | a half-epoch succeeds exactly when every id the dictionary holds has a factor slot and a solvable system; each such id's new factor solves its system against the other table, and every id the dictionary does not hold keeps its factor |
| Als.Sweep | libreco/algorithms/ALS.py:31-38 | the loop that updates one factor at a time in id order computes `Swept` |
| Als.SweepSolvable | libreco/algorithms/ALS.py:35-36 | with reg > 0 and keys all in range, every present row of a half-epoch can be solved |
| Als.Epoch | libreco/algorithms/ALS.py:31-47 | one epoch: users solve against the item factors, then items against the new user factors; absent ids keep their factors; it succeeds whenever reg > 0 and every id and key has a factor row |
| Als.RunEpoch | libreco/algorithms/ALS.py:31-47 | the loop body, the user sweep then the item sweep, computes `Epoch` |
| Als.Epochs | libreco/algorithms/ALS.py:29-47 | n epochs from the initial factors, stopping at the first failure: zero epochs leave the initial factors, absent ids keep their initial factors, the run succeeds whenever reg > 0 and all ids and keys are in range, and a singular failure needs reg ≤ 0 |
| Als.EpochsNext | libreco/algorithms/ALS.py:29 | a run one epoch longer than a successful run adds one epoch from its factors |
| Als.EpochsStayFailed | libreco/algorithms/ALS.py:29-47 | once a run has failed, a longer run reports the same failure |
| Als.LastEpoch | libreco/algorithms/ALS.py:29-47 | after a successful run, every user factor solves its system against the item factors the last epoch started from, and every item factor solves its system against the final user factors |
| Als.Fit | libreco/algorithms/ALS.py:29-47 | the epoch loop computes `Epochs` |
| Als.ColumnRoundTrip | libreco/algorithms/ALS.py:24-27 | reading the first column of the factor table gives back the factors |
| Als.FitExplicit | libreco/algorithms/ALS.py:20-57 | the fit succeeds exactly when `Epochs` over the rating dictionaries does, and the model's factors are the ones it produces; a successful fit gives a valid one-factor model over the same data, whose item factors solve their systems against the final user factors; it succeeds whenever reg > 0 and the dictionaries' ids are in range |
| Als.Where | libreco/algorithms/ALS.py:110-111 | `np.where(ids == id)`: exactly the matching positions, in increasing order |
| Als.RowsOf | libreco/algorithms/ALS.py:110-111 | entry j of the implicit row comes from the j-th matching interaction, so the row has one entry per match |
| Als.RowsOfExact | libreco/algorithms/ALS.py:119-120 | an implicit row holds exactly the (other id, label) pairs of the interactions that match its id |
| Als.ImplicitRowsBelow | libreco/algorithms/ALS.py:113-124 | when every interaction's ids are in range, so are the keys of every implicit row |
| Als.FitImplicit | libreco/algorithms/ALS.py:98-137 | the implicit fit succeeds exactly when `Epochs` over the rows selected from the interaction arrays does, and holds its factors; its item factors solve their systems against the final user factors, and it succeeds whenever reg > 0 and every interaction's ids are in range |
| Ncf.Predict | libreco/algorithms/NCF.py:192-210 | succeeds exactly for known ids; the rating task returns a rating in [1, 5], equal to the network output when that lies in [1, 5]; the ranking task returns (probability, prediction) unchanged; unknown ids are an error on both paths |
| Ncf.PredictIsNearest | libreco/algorithms/NCF.py:193-197 | the rating-task prediction is the value in [1, 5] nearest to the network's output |
| Ncf.Scores | libreco/algorithms/NCF.py:213-218 | one score per item id: the raw rating head in rating mode and the probability head in ranking mode; for a known user, `predict` reports the same probability in ranking mode and that score clamped to [1, 5] in rating mode |
| Ncf.Unconsumed | libreco/algorithms/NCF.py:223 | the filter keeps exactly the unconsumed entries and preserves sortedness and distinct ids |
| Ncf.UnconsumedSingle | libreco/algorithms/NCF.py:223 | a single entry is kept exactly when its id is unconsumed |
| Ncf.UnconsumedAppend | libreco/algorithms/NCF.py:223 | the filter keeps the order: filtering a concatenation gives the filtered parts concatenated, so with `UnconsumedSingle` the result is the unconsumed entries in their input order |
| Ncf.UnconsumedLength | libreco/algorithms/NCF.py:223 | with distinct ids, the filter removes at most one entry per consumed id |
| Ncf.SortedPairs | libreco/algorithms/NCF.py:222 | the sorted pairs hold each partitioned id once with its own score, in descending score order |
| Ncf.RankTail | libreco/algorithms/NCF.py:219-223 | kth out of bounds is an error; otherwise exactly n_rec unconsumed items with their own scores, distinct and in descending order, all taken from the partition |
| Ncf.RankTailIsBest | libreco/algorithms/NCF.py:219-223 | whichever tied ids the partition keeps, an unconsumed item left out scores no higher than any item returned |
| Ncf.Recommend | libreco/algorithms/NCF.py:212-223 | an unknown user is an error; otherwise success exactly when n_rec + #consumed is a valid kth, giving n_rec distinct, unconsumed items in descending order, each scored by the head of its mode |
| Ncf.RecommendOrderMatchesPredict | libreco/algorithms/NCF.py:192-223 | for the rating task, any valid partition yields a list, and that list is also in descending order of `predict`, because clamping never reverses two scores |
| Ncf.ArgPartition | libreco/algorithms/NCF.py:221 | one concrete partition: the ids of the best `count` indexed scores, all in range |
| Ncf.ArgPartitionIsPartition | libreco/algorithms/NCF.py:221 | for every in-bounds kth some partition exists: it has the right length, distinct in-range ids, and no left-out score above a kept one |
| Common.Clamp | libreco/algorithms/ALS.py:62 | the result lies in [lo, hi], equals x when x does, and otherwise equals the bound x crosses |
| Common.ClampMonotone | libreco/algorithms/ALS.py:74 | clamping preserves order |

## Left out

- Floating point: every score is an exact real. Rounding, NaN and infinities are not modelled, nor is numpy's float id in `topN` (ids come back as floats from `np.array(list(...items()))`).
- Als.PredictImplicit: the sigmoid is not computed. The label is a sign test on the dot product, and `SigmoidThreshold` proves the two agree for any positive `exp(-x)` that is at most 1 exactly when x ≥ 0.
- Als.Fit: only one latent factor (`n_factors = 1`) is modelled. There `inv(Y^T Y + reg I)` is a scalar division; the general matrix inverse is not modelled.
- Als.Fit: the initial factors (`truncated_normal` under a fixed seed) are parameters. Each user and item row is updated in id order `0 .. len(train_user) - 1`. With Python's dictionary order only the first error reported could differ.
- Als.Fit: a row whose id has no factor row gives `IndexOutOfRange`. Real numpy would also accept negative ids, but ids here are natural numbers.
- Als.FitExplicit: user keys are assumed to lie below n_users (`|trainUser| <= nUsers`), as the dataset's dense user ids guarantee. A larger key would raise IndexError at `self.pu[u] = ...` (ALS.py line 38) once an epoch runs, and pass silently with no epochs; the model requires it instead of returning an error. Item keys past n_items are modelled as `IndexOutOfRange`.
- Als.FitImplicit: the same assumption on user keys; the IndexError would be raised at ALS.py line 116.
- Als.Fit: the dictionaries are dense per-id tables, where an id with no entries is not a key and is skipped. A key whose dictionary is present but empty cannot be expressed. In `ALS_rating.fit` such a key would raise IndexError, because an empty float array cannot index. In `ALS.fit` its `np.where` row is empty and its factor becomes 0, which is what `Solve` gives for an empty row.
- Dense tables: every user and item that is a key of the training dictionaries has at least one rating, so a non-empty row stands for a key. An empty row is read two ways. `Als.Fit` treats it as "not a key" and skips it. `Als.RecommendUser`, `UserKnn.TopN` and `Ncf.Recommend` treat an in-range empty user row as a key with no ratings, where the code would raise KeyError on `train_user[u]` or `train_user[n]`; `UserKnn.Predict` likewise gives the global mean for an in-range empty `train_item` row, where the code would raise KeyError on `train_item[i]`. Rows of real users and items are never empty, so the two readings agree on every dataset the code builds.
- Als.Dot: the sum stops at the shorter row; the rows of a valid model all have the same length, so this never matters.
- Als.At: a key past the end of the factor table reads as 0, but only inside the sums; `Solve` rejects such a key before its value is used.
- Als.RecommendUser: the set difference `set(range(n)) - set(consumed)` is listed in ascending id order. CPython lists a set in hash-table order, which for a difference built into a smaller table is not always ascending; the model fixes ascending order. This affects only the order among equal scores.
- Ranking.Sample: the selection probabilities `p` are not modelled. The draws are a parameter, and `SampleCanDrawAny` shows that any duplicate-free selection is reachable. When `n_rec = 0` and the pool is empty, numpy raises while the model returns an empty list.
- Ncf.Recommend: the trained network (TensorFlow graph, sessions, training and evaluation metrics) is replaced by its two output heads as functions. Its `InvalidArgumentError` for an unknown id is an error result.
- Ncf.Predict: the except branch's fallback values are scalars that are then indexed (`pred[0]`), so that path raises too. The model returns an error for it.
- Ncf.RankTail: which of several tied scores `np.argpartition` keeps is left open through the `ids` parameter. When `count = 0` the slice `[-0:]` returns every id, and the model follows that.
- UserKnn.Predict: the similarity matrix (`get_sim` with the chosen metric and `min_support`) and the baseline biases (`baseline_als`) are fields of the model, not computed. Negative ids, which Python would index from the end, are not modelled.
- UserKnn.Predict: an item that is not a key of `train_item` raises a KeyError at lines 36 and 58, which `predict` does not catch. The model returns the global mean for an item past the table. `topN` never asks about such an item.
- UserKnn.TopN: in baseline mode, the ids that `topN` passes to `predict` are numpy floats, so `bi[i]` raises an IndexError. `predict` catches it, so every candidate scores the global mean. The model scores candidates with the baseline prediction that the code evidently intends.
- UserKnn.TopN: when two users tie with u for the highest similarity, rank 0 may be another user and u may appear among the neighbours. `SelfNotANeighbour` covers only the strict case.
- Printing, timing, verbosity and the evaluation metrics in `fit` are not modelled.
