# Codenames clue picker: candidate-ranking pipeline

This project models the candidate-ranking core of a clue picker for the word game Codenames. The core is `helpers.py`. Given the board's friendly, enemy (foe), neutral and assassin words, it ranks vocabulary words as possible clues.

- **Friend clusterer** (`Friends`, from `get_top_friends`): computes the adaptive cutoff distance from the friends' pairwise-distance matrix. Once hierarchical clustering has labelled the friends, it splits them into the *top friends* (cluster id 1, in their original order) and the *low friends* (every other friend, as a set).
- **Candidate scorer** (`Scoring`, from `get_scores`): for one candidate word it either
  - returns null scores, when the word is a board word, contains a board word, or (in the primary source) sits within 0.8 of the assassin; or
  - raises, when a list it takes a mean or minimum of is empty; or
  - returns four scores: goodness, bad_minimax, neutrals_minimax and variance.
- **Candidate table builder** (`CandidateTable`, from `get_candidates_df`): scores every vocabulary word with its frequency (pandas' `apply`), drops every row holding a null (`dropna`), then sorts best-first on goodness, bad_minimax, frequency and neutrals_minimax, all descending (`sort_values` and `reset_index`). A row's 0-based position is its rank.
- **Cross-source aggregator** (`Aggregation`, from `get_final_metrics`): looks up one word in several candidate tables, one per embedding source. It returns 1.5 × its summed rank, its mean variance and its mean goodness.

Shared pieces:
- `Wrappers` holds `Option`, which stands for a NaN cell, and `Result`, which stands for a raised exception.
- `RealSeq` holds sum, mean, min, max and abs over reals.
- `Text` holds ASCII lowering and Python's substring test.

The embedding distance is a parameter `dist: (string, string) -> real`. The model never computes it.

A board with no neutral words makes the scorer raise for every candidate that passes both guards, because `min` of the empty neutral distances raises (helpers.py:98). `Scoring.NoNeutralsRaise` proves this for every such board, and `Scoring.NoNeutralsBoardRaises` shows it on a concrete board.

## Model

| member | source | states |
|---|---|---|
| `Text.SubstringIffOccurs` | helpers.py:74 | The recursive substring test holds exactly when the board word occurs at some index of the lowered candidate. The empty string occurs everywhere, as in Python. |
| `Scoring.IsBoardDerived` | helpers.py:74 | The board guard: the lowered word is a board word or contains one. `Scoring.BoardGuardIsSubstringTest` and `Scoring.BoardGuardIgnoresCase` describe it. |
| `Scoring.Score` | helpers.py:60-101 | The result is null exactly when the word is board-derived, or when the source is primary and the first assassin is within 0.8. A secondary source never rejects for the assassin. The call raises exactly when the word passes the board guard and either (a) the source is primary and the assassin list is empty, or (b) the word passes the assassin guard but the foe+assassin, top-friend or neutral list is empty. Each error is pinned down in the source's order: no assassin, then no bad words, then no top friends, then no neutrals. |
| `Scoring.Measure` | helpers.py:85-101 | The four formulas never give null scores. They succeed exactly when the bad, top-friend and neutral distance lists are all non-empty. Otherwise they raise for the first empty list in the order bad, top, neutrals. The goodness, minimax and variance lemmas describe the values. |
| `Scoring.BoardGuardIsSubstringTest` | helpers.py:74 | The guard's equality test is subsumed by its substring test: a word is rejected exactly when some board word occurs in its lowered form. |
| `Scoring.BoardGuardIgnoresCase` | helpers.py:74 | The guard gives the same answer for a word and for its lowered form. |
| `Scoring.GoodnessIsMeanGap` | helpers.py:85-91 | Goodness is mean(foe ++ assassin distances) − mean(top-friend distances). It lies between min(bad) − max(top) and max(bad) − min(top). |
| `Scoring.SeparatedCandidateHasPositiveGoodness` | helpers.py:88-91 | A candidate that is farther from every foe and from the assassin than from every top friend has positive goodness. |
| `Scoring.BadMinimaxIsWorstMargin` | helpers.py:90-97 | bad_minimax is at most every (bad distance − friend distance), and equals one of them: it is the worst-case margin against all friends, top and low. |
| `Scoring.NeutralsMinimaxIsWorstMargin` | helpers.py:89-98 | neutrals_minimax is at most every (neutral distance − friend distance), and equals one of them. |
| `Scoring.VarianceIsSpread` | helpers.py:94-100 | When friend distances are non-negative, variance is non-negative, at least every pairwise difference of friend distances, and equal to one of them: it is max − min. |
| `Scoring.ScoreIgnoresLowFriendOrder` | helpers.py:57 | The scores do not depend on the order in which the low-friend set is enumerated. |
| `Scoring.NoNeutralsRaise` | helpers.py:85-98 | On every board with bad words and top friends but no neutral words (and an assassin, for the primary source), a candidate that passes both guards makes the scorer raise the empty-`min` error. |
| `Scoring.NoNeutralsBoardRaises` | helpers.py:85-98 | On one concrete board of two friends, two foes, an assassin and no neutral words, the candidate "pet" makes the scorer raise the empty-`min` error. |
| `Friends.NearestDistanceSkipsZeros` | helpers.py:43-50 | After zeros are replaced by 999, each friend's column minimum is positive. It is the smallest non-zero distance in the column when one exists, and 999 otherwise. |
| `Friends.Cutoff` | helpers.py:40-50 | The cutoff fails exactly for an empty friend list. Otherwise it lies between 1.2 × the smallest and 1.2 × the largest nearest-neighbour distance. |
| `Friends.CutoffBounds` | helpers.py:47-50 | For a non-empty distance matrix, the cutoff exists and is positive. It lies between 1.2 × the smallest and 1.2 × the largest nearest-neighbour distance. |
| `Friends.OnesAt` | helpers.py:53-54 | Every returned position holds cluster id 1, the positions are strictly ascending, and every position with id 1 is returned. |
| `Friends.TopFriends` | helpers.py:53-55 | There is one top friend per id-1 position, and every top friend is a friend whose id is 1. `Friends.TopFriendsInOrder` gives the order. |
| `Friends.Partition` | helpers.py:53-57 | The top friends come first. The low friends are disjoint from them, and the two together make up the set of friends. |
| `Friends.TopFriendsInOrder` | helpers.py:53-55 | The top friends are the friends at those positions, in order. A word is a top friend exactly when some occurrence of it has id 1. |
| `Friends.PartitionCoversFriends` | helpers.py:57 | Top and low friends are disjoint and their union is the set of friends. A friend is low exactly when no occurrence of it has id 1. |
| `Friends.TopFriendsNonEmpty` | helpers.py:51-55 | With flat-cluster labels (all ≥ 1, none skipping the label below), a non-empty friend list has at least one top friend. |
| `CandidateTable.ApplyAll` | helpers.py:124 | Scoring every row succeeds exactly when every word scores, and then it holds each word's result in order. Otherwise its error is that of the first word whose scoring raises. |
| `CandidateTable.ApplyScorer` | helpers.py:124 | The row-by-row loop computes `ApplyAll`. |
| `CandidateTable.Survivors` | helpers.py:125 | The rows dropna keeps, in input order: those whose frequency and scores are all present. `CandidateTable.SurvivorsExact` describes it. |
| `CandidateTable.SurvivorsExact` | helpers.py:123-125 | A row survives dropna exactly when it carries the word, the frequency and the scores of an input position whose frequency and scores are all present. No more rows survive than went in. |
| `CandidateTable.DropNulls` | helpers.py:125 | The dropna loop keeps exactly `Survivors`, in input order. |
| `CandidateTable.RanksAtLeast` | helpers.py:126-127 | Row a ranks at least as high as row b: lexicographically descending on goodness, bad_minimax, frequency and neutrals_minimax. `CandidateTable.RanksAtLeastTransitive` shows it is transitive. |
| `CandidateTable.Sorted` | helpers.py:126-127 | Every row ranks at least as high as every later row. `CandidateTable.BetterRowRanksFirst` describes what this means for ranks. |
| `CandidateTable.Insert` | helpers.py:126-127 | Inserting a row into a sorted table gives a sorted table holding the old rows plus that row. |
| `CandidateTable.SortDescending` | helpers.py:126-127 | The result is sorted best-first on (goodness, bad_minimax, frequency, neutrals_minimax) and is a permutation of its input. |
| `CandidateTable.BuildCandidates` | helpers.py:118-130 | Word and frequency lists of different lengths are an error. A raising scorer propagates its error. Otherwise the table is sorted and is a permutation of the surviving rows (possibly empty). |
| `CandidateTable.FirstFaultDecides` | helpers.py:124 | If every word before position i scores and word i raises, the table's error is word i's error. |
| `CandidateTable.SurvivorsPassGuards` | helpers.py:74-83 | No row of the table is board-derived, or rejected by the primary source's assassin guard. |
| `CandidateTable.BoardWordsOnlyGiveEmptyTable` | helpers.py:74-75 | A vocabulary made only of board-derived words yields an empty table, not an error. |
| `CandidateTable.BetterRowRanksFirst` | helpers.py:126-127 | In a sorted table, a row strictly better than another has the smaller position, which is the better rank. |
| `Aggregation.Rank` | helpers.py:108-109 | The rank is the position of the word's first row. It is absent exactly when no row carries the word. |
| `Aggregation.FirstMissing` | helpers.py:107-109 | The first table that lacks the word: every table before it holds the word. |
| `Aggregation.Aggregate` | helpers.py:103-116 | A result exists only when there are tables and the word is in every one of them. "No tables" is reported only for the empty list. A missing word is reported for the first table that lacks it. |
| `Aggregation.FinalMetrics` | helpers.py:103-116 | The accumulating loop computes `Aggregate`: 1.5 × summed rank, mean variance and mean goodness over the tables. It reports the first table lacking the word, or raises when there are no tables. |
| `Aggregation.AggregateFailsExactly` | helpers.py:103-116 | Aggregation fails exactly when there are no tables or some table lacks the word. It reports "no tables" exactly when the list is empty. |
| `Aggregation.TotalRankZeroIffTopEverywhere` | helpers.py:109-116 | The weighted total rank is never negative. It is zero exactly when the word heads every table. |
| `Aggregation.AggregateIgnoresTableOrder` | helpers.py:107-116 | Swapping two groups of source tables does not change whether aggregation fails. When the word is in every table, it does not change the result either. |
| `Aggregation.AveragesWithinRange` | helpers.py:111-116 | The average variance and the average goodness lie between the word's smallest and largest per-table values. |

## Left out

- `distance` (helpers.py:37-38) is the caller-supplied `dist`. The model does not include the vector lookup, its `KeyError` for an unknown word, or the cosine arithmetic, including a NaN for a zero vector.
- Hierarchical clustering (helpers.py:41-44, 51-52): `pdist`, `squareform`, `linkage` and `fcluster` are scipy code. The model takes the pairwise-distance matrix and the cluster ids as inputs. How the cutoff shapes the ids is not modelled.
- `Friends.Cutoff` returns a value for a one-friend matrix (1.2 × 999). In the code, `linkage` then raises for fewer than two friends, and that failure is outside the model.
- `get_game_words` (helpers.py:16-35) is random sampling from a data frame. It is not modelled.
- The `print` calls (helpers.py:121-122, 128-129) are not modelled.
- Floating point: distances and scores are exact reals, so rounding in sums and means is not modelled.
- Lowering is ASCII-only. Python's `str.lower` also folds non-ASCII letters.
- Constants follow helpers.py, not games/config.py: cutoff multiplier 1.2 (config says 1.15), assassin threshold 0.8 (config says 0.78), rank multiplier 1.5 (config says 1.25). The config file's secondary sort order is used nowhere in helpers.py, so it is not modelled.
- `get_scores` fetches a `friends` argument that it never uses, so `Scoring.Board` has no such field.
- A missing frequency is `None` (NaN). A missing word is not modelled, because the scorer's `word.lower()` would already fail on it.
- `CandidateTable.BuildCandidates`: for an empty vocabulary the model returns an empty table. pandas' handling of `apply` on a zero-row frame is not modelled.
- `Aggregation.AggregateIgnoresTableOrder`: when a word is missing, the error names the first table that lacks it, so the reported index depends on the order of the tables. Only the fact of failure is order-independent.
- `CandidateTable.SortDescending` happens to be stable, but only sortedness and permutation are promised, because pandas does not fix the order of rows tied on all four keys.
- The candidate frame is modelled as sequences returned by three methods (apply, dropna, sort). It is not an object mutated in place.
