# Collaborative filtering on a user–show matrix, in Dafny

This project models the core of a small Python recommender, `collaborative_filtering.py`:

- **Score matrices.** Item–item scores are the user–show interaction matrix times an item–item similarity. User–user scores are a user–user similarity times the interaction matrix (`item_item_recommend`, `user_user_recommend`).
- **Top-k.** `find_top_k_shows` selects the top-k shows of one user's score row with numpy's `argpartition`, pairs them with their scores and sorts the pairs by score.
- **Rate sweep.** `find_true_positive_rate_vs_k` sweeps k over a range. For each k it records how many of a ground-truth user's watched shows among the first 100 the top-k list recovers, out of how many there are.
- **Correlation table.** `kendall_rank_correlation` fills a symmetric 4×4 table of a pairwise rank statistic between four recommendation lists.

The driver `execute_collaborative_filtering.py` contributes one operation: the hold-out copy that hides a user's first 100 entries before the scores are computed.

Modules:

- `Results`: `Option`, `Result`, and the `Failure` cases standing for the Python exceptions:
  - `IndexOutOfRange` for `IndexError` on a missing row or show;
  - `KthOutOfBounds` for the `ValueError` of `argpartition`;
  - `NonIntegerIndexArray` for indexing with the float-typed empty array `np.array([])`;
  - `ZeroDivision` for `ZeroDivisionError`.
- `Matrices`: `Dot`, `Column`, `Transpose`, `MatMul` and `Identity` on `seq<seq<real>>`.
- `Recommend`: the two score builders. The cosine similarity matrix is an input.
- `Ranking`: index sequences, a stable descending insertion sort by score, and facts about it.
- `TopK`:
  - `IsArgPartition` states what numpy promises of `argpartition`.
  - `TopKFrom` works for any such partition.
  - `ArgPartition` is the one admissible partition the model fixes.
  - `FindTopKShows` models the whole function, including its errors.
- `Sweep`: the rate sweep, stated over any top-k function (`TopKFn`) and then instantiated with `FindTopKShows`. Also the hold-out copy, and the witness of the hard-coded ground-truth row.
- `Correlation`: the 4×4 fill loop, with the statistic as a function parameter.

A rate is kept exactly as the pair `recovered / held` (`Rate(k, recovered, held)`), not as a float.

## Model

| member | source | states |
|---|---|---|
| Matrices.MatMul | collaborative_filtering.py:10 | `np.matmul`: the product of an n×inner and an inner×cols matrix is n×cols, and entry (i, j) is the dot product of row i of the left matrix with column j of the right one |
| Matrices.Transpose | collaborative_filtering.py:9 | `np.transpose`: a rows×cols matrix becomes cols×rows, with entry (j, i) equal to the original entry (i, j) |
| Matrices.MatMulTranspose | collaborative_filtering.py:10 | the transpose of a product is the product of the transposes in reverse order |
| Matrices.MatMulIdentityRight | collaborative_filtering.py:10 | multiplying by the identity on the right returns the matrix |
| Matrices.MatMulIdentityLeft | collaborative_filtering.py:15 | multiplying by the identity on the left returns the matrix |
| Matrices.MatMulNonNegative | collaborative_filtering.py:10 | a product of two matrices with non-negative entries has non-negative entries |
| Recommend.ItemItemRecommend | collaborative_filtering.py:8-10 | the item–item score matrix is users×items; user u's score for show i weighs u's interactions by each show's similarity to i |
| Recommend.UserUserRecommend | collaborative_filtering.py:13-15 | the user–user score matrix is users×items; user u's score for show i weighs every user's interaction with i by that user's similarity to u |
| Recommend.ItemItemIdentity | collaborative_filtering.py:8-10 | with the identity as show similarity, item–item scores equal the interaction matrix |
| Recommend.UserUserIdentity | collaborative_filtering.py:13-15 | with the identity as user similarity, user–user scores equal the interaction matrix |
| Recommend.SymmetricTranspose | collaborative_filtering.py:9 | a symmetric similarity matrix, as cosine similarity always is, equals its transpose |
| Recommend.ItemItemIsTransposedUserUser | collaborative_filtering.py:8-15 | item–item scores are the transpose of user–user scores computed on the transposed (shows×users) matrix with the same symmetric similarity |
| Recommend.RecommendNonNegative | collaborative_filtering.py:8-15 | non-negative interactions (the source's are 0/1) and non-negative similarities give non-negative scores under both strategies |
| Ranking.SortDesc | collaborative_filtering.py:28 | the sort returns a rearrangement of its input (same multiset), highest score first |
| Ranking.InsertRanked | collaborative_filtering.py:28 | inserting one index into a list ranked by score keeps it ranked |
| Ranking.SortDescIdentity | collaborative_filtering.py:28 | sorting a list that is already ranked by score leaves it unchanged |
| Ranking.SortDescTiesAscending | collaborative_filtering.py:28 | the sort is stable: given ascending indices, equal scores come out by ascending index |
| Ranking.DistinctMultiplicity | collaborative_filtering.py:24 | a list has no repeated index exactly when every index occurs at most once in its multiset |
| Ranking.PermutationKeepsDistinct | collaborative_filtering.py:20-24 | a rearrangement of distinct indices is distinct, so an `argpartition` result repeats no show |
| TopK.Shows | collaborative_filtering.py:37 | `[s[0] for s in ...]`: the list of shows has one entry per pair, in the same order |
| TopK.CandidateCount | collaborative_filtering.py:19-22 | a falsy `first_n_shows_consider` (None or 0) keeps the whole row; a positive one keeps its first n entries, or the whole row if shorter |
| TopK.TopKFrom | collaborative_filtering.py:24-28 | for every partition numpy may return, the result is a top-k list: k pairs of distinct candidate shows with their own scores, highest first, and no unlisted candidate scores higher than a listed one. Its shows are exactly the partition's first k, as a multiset |
| TopK.ArgPartition | collaborative_filtering.py:20-22 | the fixed partition is admissible for every kth: it ranks all candidates by descending score, ties by ascending index |
| TopK.FindTopKShows | collaborative_filtering.py:18-29 | a missing user raises `IndexError`; k not below the candidate count raises the `argpartition` `ValueError`; otherwise the result is a top-k list over the candidate pool |
| TopK.Pair | collaborative_filtering.py:25-27 | `zip(top_k_shows_idx, recommend_matrix[user][top_k_shows_idx])`: one pair per show, in order, each holding the show's own score |
| TopK.TopKOf | collaborative_filtering.py:20-28 | built one show at a time, the fixed-partition list is the first k candidates of the fixed ranking, each paired with its score |
| TopK.TopKOfIsTopKFrom | collaborative_filtering.py:20-28 | running lines 24-28 (slice, pair, sort) on the fixed partition gives exactly that list, so it is a top-k list |
| TopK.TopKFromRanked | collaborative_filtering.py:24-28 | for a partition that is ranked throughout, the final sort changes nothing and the result pairs its first k indices with their scores |
| TopK.TopKOfTiesAscending | collaborative_filtering.py:20-28 | with the fixed partition, the top-k shows are the first k of one ranking of all candidates, ties by ascending index |
| TopK.TopKOfNested | collaborative_filtering.py:20-28 | for k ≤ k', the top-k list is a prefix of the top-k' list |
| TopK.TopKOfNext | collaborative_filtering.py:20-28 | the top-(k+1) shows are the top-k shows followed by one more show |
| TopK.FindTopKShowsPrefix | collaborative_filtering.py:18-29 | a successful call lists the first k shows of the fixed ranking of the candidates, ties by ascending index |
| TopK.FindTopKShowsNested | collaborative_filtering.py:18-29 | if the call succeeds for k', it succeeds for every k ≤ k' and returns a prefix of the k' result |
| TopK.FindTopKShowsNext | collaborative_filtering.py:18-29 | if the call succeeds for k + 1, it succeeds for k, and the k + 1 shows are the k shows plus one |
| TopK.TopKUniqueWithoutTies | collaborative_filtering.py:18-29 | when no two candidates share a score, any two top-k lists of a row are equal |
| TopK.NestedWithoutTies | collaborative_filtering.py:20-28 | when no two candidates share a score, any top-k list is the first k entries of any top-k' list for k ≤ k', whichever partitions produced them |
| TopK.TiedPartitionsNotNested | collaborative_filtering.py:20-28 | with ties, nesting fails for some admissible partitions: when shows 0, 1 and 2 tie above show 3, the partitions [0, 1, 2, 3] (kth = 1) and [1, 2, 0, 3] (kth = 2) give a top-1 list [0] whose show the top-2 list leaves out |
| TopK.AnyPartitionWithoutTies | collaborative_filtering.py:20-28 | when no two candidates share a score, the partition numpy picks cannot change the result |
| Sweep.Watched | collaborative_filtering.py:39 | `count_nonzero(user_shows[19][recommended_shows])`, the numerator: it counts at most one per listed show |
| Sweep.HeldCount | collaborative_filtering.py:34 | `count_nonzero(user_shows[19][:100])`, the denominator: at most the number of shows among the first 100 |
| Sweep.WatchedIsSetSize | collaborative_filtering.py:39 | `count_nonzero` over distinct shows is the size of the set of watched shows among them |
| Sweep.RecoveredAtMostHeld | collaborative_filtering.py:34-39 | distinct shows among the first 100 recover no more watched shows than the held count, so every rate lies in [0, 1] |
| Sweep.WatchedPrefix | collaborative_filtering.py:39 | a prefix of a show list never counts more watched shows than the whole list |
| Sweep.FirstOutside | collaborative_filtering.py:39 | finds a listed show beyond the ground-truth row exactly when one exists, so indexing by the list raises `IndexError` |
| Sweep.RateOf | collaborative_filtering.py:37-40 | k = 0 raises, because the empty float array is not a valid index. A show outside the ground-truth row raises `IndexError`. Past those checks, a zero held count raises `ZeroDivisionError`. Otherwise the rate is the watched count of the shows over the held count, and is at most 1 |
| Sweep.SweepStep | collaborative_filtering.py:36-40 | one k: an error from the top-k call is passed on; a success meets the rate at k; inputs the source accepts give a success |
| Sweep.SweepUpTo | collaborative_filtering.py:35-41 | k is taken in increasing order. A failing first top-k call passes its error on; k = 0 raises; a zero held count raises `ZeroDivisionError` once the first top-k list lies inside the row. A success holds one rate per k of the range, each meeting the rate at its k. Feasible inputs succeed |
| Sweep.SweepUpToFirstError | collaborative_filtering.py:35-40 | when every k before m goes through and the top-k call at m raises, the sweep raises exactly that error |
| Sweep.SnocRateCurve | collaborative_filtering.py:40 | appending the rate at the next k extends a rate curve |
| Sweep.RateCurveMonotone | collaborative_filtering.py:35-40 | for a nested top-k function, at any positions i ≤ j of a rate curve, the recovered count at i is at most the one at j |
| Sweep.RateAtMonotone | collaborative_filtering.py:36-39 | for a nested top-k function, the rate at k recovers no more than the rate at any k' ≥ k |
| Sweep.TopKOverProper | collaborative_filtering.py:36-37 | every list that `find_top_k_shows(user, k, matrix, 100)` gives the sweep names distinct shows among the first 100 |
| Sweep.TopKOverNested | collaborative_filtering.py:36 | the sweep's top-k function is nested: smaller k succeed too and list a prefix |
| Sweep.SweepPool | collaborative_filtering.py:36 | the sweep's candidate pool has at most 100 shows and no more than the row |
| Sweep.SweepDefinedFeasible | collaborative_filtering.py:34-40 | the conditions are a valid user, 1 ≤ k below the pool, a positive held count, and a ground-truth row covering the pool. Under them, every top-k call succeeds and its shows index the ground-truth row |
| Sweep.RateSweep | collaborative_filtering.py:32-42 | the sweep against a given ground-truth row. A missing row raises first, even for an empty range. Then (`RaisesAsSource`): a missing user raises `IndexError`; a first k at or above the pool raises `ValueError`; k = 0 raises `IndexError`; a zero held count raises `ZeroDivisionError`; a range that runs past the pool raises `ValueError` at k = pool. A success is a rate curve, and inputs meeting the conditions of `SweepDefined` succeed |
| Sweep.SweepUpToRaises | collaborative_filtering.py:20-22 | against an existing row, each of those errors is what the sweep returns, the later `ValueError` included |
| Sweep.FindTruePositiveRateVsK | collaborative_filtering.py:32-42 | the function as written: it scores user `user`'s top-k lists against row 19, whatever `user` is, and raises as `RateSweep` does with row 19 (a table of fewer than 20 rows raises `IndexError` first) |
| Sweep.TruePositiveRateVsK | collaborative_filtering.py:32-42 | corrected version: scores user `user`'s top-k lists against the user's own row, and raises as `RateSweep` does with that row |
| Sweep.ListsTopKNested | collaborative_filtering.py:18-29 | when no two candidates share a score, any top-k function returning some top-k list for each k below the pool is nested, whatever partition numpy returns |
| Sweep.RatesMonotoneWithoutTies | collaborative_filtering.py:35-40 | when no two candidates share a score, the recovered counts of any such function's rate curve never decrease with k |
| Sweep.TopKOverListsTopK | collaborative_filtering.py:36 | the model's `find_top_k_shows(user, k, matrix, 100)` is one such function: top-k lists exactly for k below the pool |
| Sweep.RateSweepMonotone | collaborative_filtering.py:32-42 | in a successful sweep, for any positions i ≤ j, the recovered count at i is at most the one at j |
| Sweep.HoldOut | execute_collaborative_filtering.py:19-20 | the hold-out copy zeroes the user's first 100 entries and keeps every other entry and every other row. A missing user raises `IndexError` |
| Sweep.HoldOutHidesHeld | execute_collaborative_filtering.py:19-20 | after the hold-out, the user's held count is 0 and every other user's is unchanged |
| Sweep.TopOneOfTwo | collaborative_filtering.py:18-29 | over two candidates, the top-1 list of a row with a higher first score is show 0 |
| Sweep.TwoShowCounts | collaborative_filtering.py:34-39 | over a two-show row, the held count and the watched count of show 0 |
| Sweep.WitnessTopOne | collaborative_filtering.py:36 | one user, two shows, show 0 scored higher: the sweep's top-1 list is show 0 |
| Sweep.WitnessRates | collaborative_filtering.py:34-40 | on that input, a sweep over k = 1 records exactly how many of the row's shows are watched and whether show 0 is |
| Sweep.HardCodedRowMisreports | collaborative_filtering.py:34-39 | the setup: one user, two shows, show 0 scored higher; user 0 watched both shows and user 19 only show 1. Asked about user 0 for k = 1, the function as written reports 0/1 by reading user 19's row, though user 0 watched the top-1 show |
| Sweep.OwnRowReports | collaborative_filtering.py:34-39 | on every such input, the corrected sweep reports 1/2 for user 0 |
| Correlation.RecommendTypes | collaborative_filtering.py:63 | the four lists in the source's order: item–item, user–user, ItemKNN, WRMF |
| Correlation.KendallRankCorrelation | collaborative_filtering.py:62-70 | the table is 4×4. Every entry on or above the diagonal is the statistic of the row's list against the column's. The table is symmetric. When the statistic is symmetric, every entry is the statistic of its pair |

## Left out

- Cosine similarity (`sklearn.metrics.pairwise.cosine_similarity`, lines 9 and 14) is foreign code: the similarity matrix is an input. Its symmetry is assumed only where a lemma says so (`IsSimilarity`).
- The body of `scipy.stats.kendalltau` (line 68) is foreign code: the statistic is a function parameter of `KendallRankCorrelation`. Its NaN results are not modelled.
- Floating point: scores, similarities and the statistic are `real`, and a rate is the exact pair (recovered, held) instead of a float quotient. Rounding and NaN are not modelled.
- Python's negative indices and negative `k` or `first_n_shows_consider` are not modelled: these parameters are `nat`.
- `range(*k)` is modelled for the two-element form `(lo, hi)` the driver passes. A step is not modelled.
- numpy's `argpartition` order is not modelled beyond its promise:
  - `TopKFrom` is proved for every admissible partition.
  - `FindTopKShows` fixes one admissible partition (a stable descending ranking).
  - `AnyPartitionWithoutTies` and `NestedWithoutTies` show the choice does not matter when there are no ties.
  - With ties, numpy may return different shows than the model.
- The conversion of the result to `np.array` (line 42) is not modelled: the sweep returns a sequence of `Rate`.
- Plotting (`plot_true_positive_rate_vs_k`, lines 45-59) and the printing in `kendall_rank_correlation` (lines 72-79) are output only.
- The driver's file reading, printing and the fixed MyMedialite lists are I/O and constants. Only the hold-out copy (`HoldOut`) is modelled.
- k equal to the candidate count: `find_top_k_shows` raises `ValueError` there, because `argpartition` requires kth below the length. The model follows the code, although asking for every candidate could be read as allowed.
- Ties: the code does not break them. The model's fixed partition breaks them by index. With ties, numpy may return top-k lists that are not nested in k. `TiedPartitionsNotNested` proves this: on a row like `[1, 1, 1, 0]` the partition `[0, 1, 2, 3]` is admissible for kth = 1 and `[1, 2, 0, 3]` for kth = 2, so the top-1 show 0 is missing from the top-2 list. The members below rely on the fixed tie-break. Without ties, `NestedWithoutTies`, `ListsTopKNested` and `RatesMonotoneWithoutTies` prove the same facts for any partition.
- TopK.FindTopKShowsPrefix: the shows are a prefix of the fixed ranking only under the model's tie-break.
- TopK.FindTopKShowsNested: nesting in k holds for numpy's results only without ties (`NestedWithoutTies`).
- TopK.FindTopKShowsNext: appending one show from k to k + 1 holds for numpy's results only without ties.
- Sweep.TopKOverNested: the sweep's top-k function is nested for any partition only without ties (`ListsTopKNested`).
- Sweep.RateSweepMonotone: with ties and numpy's partition, the recovered count can drop as k grows (against ground truth `[1, 0, 0, 0]` on the row above it goes from 1 to 0). Without ties, `RatesMonotoneWithoutTies` holds for any partition.

## Findings

| source | as written | input that shows it | evidently intended | confidence | as-written member | corrected member |
|---|---|---|---|---|---|---|
| collaborative_filtering.py:34-39 | the held count and the recovered count both read `user_shows[19]`, whatever `user_idx` is | 20 users and 2 shows. User 0 has watched both shows; user 19 has watched show 1 only. The score matrix is `[[1.0, 0.0]]`, and the call is `find_true_positive_rate_vs_k(..., user_idx=0, k=[1, 2])`. Show 0 comes out on top and user 0 watched it, yet the result is 0/1. The same holds for any score matrix with one row that scores show 0 higher | read `user_shows[user_idx]`, giving 1/2 | not executed | Sweep.HardCodedRowMisreports | Sweep.TruePositiveRateVsK |
