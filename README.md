# Movie recommendation core, modelled in Dafny

This project models the two recommenders of the Movie-Recommendation-System repository and proves properties about them.

The first recommender is **content-based**. It parses each movie's pipe-delimited genre string into tags. It one-hot encodes the tags over the sorted universe of all tags, which is what the multi-label binarizer produces. It takes the cosine similarity of those genre vectors. It then returns the `top_n` movies most similar to a given title, never the title itself.

The second recommender is **user-based collaborative filtering**. `fit_cf_model` does the following:
- it maps user and movie ids to dense indices in ascending id order;
- it builds the sparse user × movie rating matrix;
- it computes each user's guarded mean, `sum / max(1, nnz)`;
- it mean-centres the stored entries of each row in a loop over the list-of-lists form.

`recommend_for_user` then does the following:
- it rejects unknown users;
- it zeroes the target's own similarity;
- it takes the `k` most similar users;
- the candidates are the movies those neighbours rated and the target did not;
- it predicts `mean_u + Σ sim·(r − mean_v) / (Σ|sim| + 1e-8)` over the neighbours who rated the movie;
- it ranks the predictions.

When there is no candidate, it falls back to a popularity table instead. That table holds the movies with at least `min_ratings_per_item` ratings, sorted by mean and then by count, both descending, and joined with the catalog.

The project has eight modules:
- `catalog.dfy` (`Catalog`): movies, rating events, and the left join on `movieId`;
- `ranking.dfy` (`Ranking`): a stable descending sort, `argsort`, the filter that drops one index, and `head(n)`;
- `content_based.dfy` (`ContentBased`): genre parsing, the tag universe, encoding, the cosine index, and `recommend_by_title`;
- `cf_model.dfy` (`CfModel`): id indexing, the sparse matrix, the means, the in-place centring class `LilMatrix`, and `fit_cf_model`;
- `cf_predict.dfy` (`CfPredict`): neighbours, candidates, the prediction formula and its bounds, and the prediction loop;
- `popularity.dfy` (`Popularity`): the popularity fallback;
- `cf_recommend.dfy` (`CfRecommend`): `recommend_for_user`;
- `scenarios.dfy` (`Scenarios`): small worked catalogs and rating logs, with what the general contracts give for them.

Cosine similarities are never computed, because the model has no square root. The content index is characterised by `IsCosineIndex`: each entry `c` has the sign of the dot product, and `c² · |a|² · |b|² = (a·b)²`, or 0 when a vector is zero. The collaborative filter receives the target's similarity row as an input.

## Model

| member | source | states |
|---|---|---|
| ContentBased.ParseGenres | src/content_based.py:6-11 | a blank string or the "(no genres listed)" sentinel gives no tags, and any other string gives its pipe-free pieces, which join back to the string |
| ContentBased.JoinSplit | src/content_based.py:11 | joining the pieces of `split("\|")` with pipes restores the original string |
| ContentBased.Split | src/content_based.py:11 | `split("\|")` always yields at least one piece and no piece contains a pipe |
| ContentBased.Join | src/content_based.py:11 | the pipe-join used to state the inverse of `split`: it starts with the first piece, followed by a pipe when more pieces follow |
| ContentBased.IsBlank | src/content_based.py:7 | a string is blank when every character is whitespace in the sense of `str.isspace`; the empty string is blank |
| ContentBased.StripEmptyIffBlank | src/content_based.py:7 | `genre_str.strip() == ""` (leading and trailing whitespace removed) holds exactly for the blank strings |
| ContentBased.SplitJoin | src/content_based.py:11 | splitting a pipe-join of pipe-free pieces gives back exactly those pieces |
| ContentBased.StrLtTransitive | src/content_based.py:16-17 | Python's string order, by which the binarizer sorts its classes, is transitive |
| ContentBased.StrLtTotal | src/content_based.py:16-17 | of two different strings, one is smaller in that order |
| ContentBased.TagsSortedDistinct | src/content_based.py:16-17 | a strictly sorted tag universe has no duplicate class |
| ContentBased.InsertTags | src/content_based.py:16-17 | adding tags to a sorted universe keeps it sorted, and its set grows by exactly those tags |
| ContentBased.TagUniverse | src/content_based.py:16-17 | the classes are sorted without duplicates and are exactly the tags that occur in some movie |
| ContentBased.Encode | src/content_based.py:17 | a movie's feature row has one entry per class: 1 where the class is one of its tags, 0 elsewhere |
| ContentBased.DotCountsSharedTags | src/content_based.py:17-19 | over duplicate-free classes, the dot product of two encodings is the number of tags the two movies share |
| ContentBased.TitleIndex | src/content_based.py:21 | the title map's keys are exactly the catalog titles, each maps to a row carrying it, and the last such row wins for duplicates |
| ContentBased.FitContentModel | src/content_based.py:13-22 | the fitted classes are the sorted tag universe, feature (i, j) is 1 iff class j is a tag of movie i and 0 otherwise, and the title map is built from the catalog titles |
| ContentBased.FittedDot | src/content_based.py:17-19 | the dot product of two fitted feature rows is the size of the intersection of the two movies' tag sets |
| ContentBased.FittedDotSymmetric | src/content_based.py:17-19 | the dot product of fitted feature rows is symmetric |
| ContentBased.CosineEntry | src/content_based.py:19 | each cosine entry is the cosine of the shared-tag count over the two tag-set sizes |
| ContentBased.IsCosineIndex | src/content_based.py:19 | `cosine_similarity(genre_features)` without square roots: a square matrix with one row per movie whose entry (i, j) is 0 if either row is zero, and otherwise has the sign of the dot product and satisfies c²·‖a‖²·‖b‖² = (a·b)² |
| ContentBased.IsCosineUnique | src/content_based.py:19 | the conditions on one cosine entry determine it: two values meeting them are equal |
| ContentBased.CosineIndexUnique | src/content_based.py:19 | for given feature rows, at most one matrix meets `IsCosineIndex`, so the characterisation fixes the matrix `cosine_similarity` returns |
| ContentBased.CosineSymmetric | src/content_based.py:19 | the similarity index is symmetric |
| ContentBased.CosinePositiveIffShared | src/content_based.py:19 | an entry is positive exactly when the two movies share a tag |
| ContentBased.CosineSelf | src/content_based.py:19 | a movie's similarity to itself is 1 when it has tags and 0 when it has none |
| ContentBased.CosineBounds | src/content_based.py:19 | every similarity lies in [0, 1] |
| ContentBased.SimilarRows | src/content_based.py:30-31 | `min(top_n, M−1)` distinct rows, never the query row, in non-increasing similarity, and no other row left out is more similar than a row kept |
| ContentBased.RecommendByTitle | src/content_based.py:24-34 | an unknown title is an error naming it; otherwise rows ranked 1.. carry the id, title and genres of the most similar other movies, and with unique ids none is the queried movie |
| Ranking.SortDesc | src/collaborative_filtering.py:121 | the sorted list is a permutation of its input, in non-increasing key order |
| Ranking.InsertDescending | src/collaborative_filtering.py:121 | inserting into a descending list keeps it descending |
| Ranking.Argsort | src/content_based.py:30 | `argsort(-sims)` is a permutation of the row indices with the scores in non-increasing order |
| Ranking.DropValue | src/content_based.py:31 | the filtered list holds exactly the indices other than the dropped one |
| Ranking.DropValueLength | src/content_based.py:31 | the filter removes exactly the occurrences of the dropped index: the length shrinks by its number of occurrences |
| Ranking.DropValueFacts | src/content_based.py:31 | dropping the query index from a descending permutation removes one element and keeps distinctness and order |
| Ranking.Take | src/collaborative_filtering.py:122 | `[:n]` is the prefix of length `min(n, len)` |
| Ranking.TakeKeepsBest | src/content_based.py:31 | no index cut off by `[:n]` scores higher than an index kept |
| Ranking.SortTakeFacts | src/collaborative_filtering.py:121-122 | sorting and cutting keeps `min(n, len)` distinct items, descending, all from the input, with nothing left out ranked above anything kept |
| Catalog.FindMovie | src/collaborative_filtering.py:127 | the left join finds a catalog row with the id, or reports that none has it |
| Catalog.FindMovieAt | src/collaborative_filtering.py:127 | with unique catalog ids, the join finds exactly the movie's own row |
| Catalog.TitleOf | src/collaborative_filtering.py:127 | a title is present exactly when the catalog has the movie (otherwise the join leaves it missing) |
| Catalog.GenresOf | src/collaborative_filtering.py:127 | genres are present exactly when the catalog has the movie |
| CfModel.SortedIds | src/collaborative_filtering.py:8-11 | `sorted(unique(ids))` is strictly increasing and holds exactly the ids that occur |
| CfModel.IndexMap | src/collaborative_filtering.py:10-11 | `{id: i for i, id in enumerate(sorted_ids)}` maps the id at position i to i, and every key to a position holding that id |
| CfModel.Invert | src/collaborative_filtering.py:12 | `{i: id for id, i in m.items()}` of an injective map: each id's index maps back to the id, and each index maps to an id whose index it is |
| CfModel.IncreasingUnique | src/collaborative_filtering.py:10-11 | two strictly increasing lists with the same elements are equal |
| CfModel.IndexAssignmentDeterministic | src/collaborative_filtering.py:8-11 | the index a user or movie gets depends only on the set of ids, not on event order |
| CfModel.IndexMapFacts | src/collaborative_filtering.py:10-11 | `enumerate(sorted(...))` maps exactly the ids, onto positions, preserving their order |
| CfModel.IdIndexBijection | src/collaborative_filtering.py:10-12 | the id map is an order-preserving bijection onto 0..n−1, and `idx_to_movie_id` is its inverse in both directions |
| CfModel.EventsIndexed | src/collaborative_filtering.py:15-16 | every event's user and movie have indices, and the user index is below the number of users |
| CfModel.InsertEntry | src/collaborative_filtering.py:20 | storing an event adds its column to the row, and an event for a new column adds exactly that entry |
| CfModel.InsertEntrySums | src/collaborative_filtering.py:20 | an event for a column already stored adds its value into that cell, as the sparse constructor sums duplicate coordinates; the row keeps its length and every other entry is unchanged |
| CfModel.RatingMatrix | src/collaborative_filtering.py:15-20 | the COO-to-CSR build: one row per user, each event folded into its user's row at its movie's column; the contents are stated by the three lemmas below |
| CfModel.InsertEntrySorted | src/collaborative_filtering.py:20 | stored entries stay in increasing column order |
| CfModel.RatingMatrixColumns | src/collaborative_filtering.py:15-20 | each user row stores exactly the columns of the movies that user rated |
| CfModel.RatingMatrixCells | src/collaborative_filtering.py:15-20 | without repeated (user, movie) events, each row's entries are exactly that user's events, at their movies' columns, with their ratings |
| CfModel.RatingMatrixSorted | src/collaborative_filtering.py:15-20 | every row is in increasing column order |
| CfModel.MatrixColumnsKnown | src/collaborative_filtering.py:12-20 | every stored column is the index of a known movie |
| CfModel.FittedMatrixCells | src/collaborative_filtering.py:15-20 | for the fitted id maps, each row holds exactly its user's events |
| CfModel.NonZeroCountPositive | src/collaborative_filtering.py:23 | with positive ratings, `(mat != 0).sum(axis=1)` counts every stored entry |
| CfModel.MeanOfPresentRatings | src/collaborative_filtering.py:23-24 | with positive ratings, the guarded mean times the count is the row sum, and a user without entries has mean 0 |
| CfModel.Mean | src/collaborative_filtering.py:23 | `sum / max(1, nnz)`: with nonzero entries, mean × nnz is the row sum; with none, the guard divides by 1 |
| CfModel.RowSumBounds | src/collaborative_filtering.py:23 | a row sum lies between count·lowest and count·highest rating |
| CfModel.MeanWithinBounds | src/collaborative_filtering.py:23 | a non-empty user's mean lies between the lowest and highest of that user's ratings |
| CfModel.CenterRowSum | src/collaborative_filtering.py:28-31 | centring lowers a row's sum by count·mean |
| CfModel.CenterRow | src/collaborative_filtering.py:30-31 | the centred row: same length, each stored entry keeps its column and loses the user's mean, cells not stored stay absent |
| CfModel.CenterMatrix | src/collaborative_filtering.py:25-32 | the centred matrix that `LilMatrix.CenterRows` is proved to produce: every user row centred by that user's mean, same number of rows |
| CfModel.CenteringPreservesStructure | src/collaborative_filtering.py:25-32 | centring keeps each row's columns and length, leaves empty rows empty, subtracts the user's mean from each stored value, and leaves a positive row summing to 0 |
| CfModel.LilMatrix.FromRows | src/collaborative_filtering.py:27 | the list-of-lists form represents exactly the given matrix |
| CfModel.LilMatrix.CenterRows | src/collaborative_filtering.py:27-32 | the in-place loop leaves the column lists untouched and turns the matrix into its mean-centred form |
| CfModel.FitCfModel | src/collaborative_filtering.py:6-41 | the bundle holds the sorted-id index maps and their inverse, the rating matrix, the per-user means and the centred matrix, and satisfies what the recommender relies on |
| CfModel.FittedBundleValid | src/collaborative_filtering.py:34-41 | a fitted bundle has means for every user, user indices in range, and every stored column mapped back and forth to a movie id |
| CfPredict.RatingAt | src/collaborative_filtering.py:106 | a column the row does not store reads 0, and a stored one reads its stored value |
| CfPredict.Neighbors | src/collaborative_filtering.py:67-68 | `min(k, n)` distinct users in non-increasing similarity, none left out more similar than one chosen |
| CfPredict.SelfChosenOnlyWithoutPositiveRivals | src/collaborative_filtering.py:64-67 | the target can be among its own neighbours only when no user outside the neighbourhood has positive similarity |
| CfPredict.NeighborItems | src/collaborative_filtering.py:77-79 | the union of the neighbours' rated columns |
| CfPredict.CollectCandidates | src/collaborative_filtering.py:77-79 | the update loop collects exactly that union |
| CfPredict.Candidates | src/collaborative_filtering.py:71-80 | a candidate is a column some neighbour rated and the target did not |
| CfPredict.Weight | src/collaborative_filtering.py:114 | a neighbour's weight is non-negative |
| CfPredict.HasRater | src/collaborative_filtering.py:106-109 | `np.any(col > 0)`: some neighbour's read-out for the item is positive; items without such a neighbour are skipped |
| CfPredict.RaterStoresColumn | src/collaborative_filtering.py:106-107 | a neighbour passes the mask only if its sparse row stores the item's column |
| CfPredict.Share | src/collaborative_filtering.py:110-113 | one neighbour's term `sim·(r − mean)`, or 0 when the mask drops that neighbour |
| CfPredict.Numerator | src/collaborative_filtering.py:113 | `np.sum(sims * (r_vi − mu_v))` over the masked neighbours, as a sum of shares; its meaning is carried by NumeratorIsSum, NumeratorBound and NoRaterNoWeight |
| CfPredict.Predict | src/collaborative_filtering.py:113-115 | `user_means[u] + num / (Σ\|sim\| + 1e-8)`; its bounds are stated by PredictionBounded and ZeroSimilarityPredictsMean |
| CfPredict.ZeroSimilarityPredictsMean | src/collaborative_filtering.py:113-115 | when every neighbour has similarity 0 the numerator is 0 and the prediction is exactly the target's mean |
| CfPredict.AbsSum | src/collaborative_filtering.py:114 | `Σ|sim|` over the masked neighbours is non-negative, and 0 when nobody rated the movie |
| CfPredict.NoRaterNoWeight | src/collaborative_filtering.py:107-114 | with no rating neighbour, numerator and weight sum are both 0 |
| CfPredict.NumeratorIsSum | src/collaborative_filtering.py:113 | the numerator is the sum of the per-neighbour shares |
| CfPredict.SumBound | src/collaborative_filtering.py:113 | a sum is bounded in absolute value by termwise bounds |
| CfPredict.ShareBound | src/collaborative_filtering.py:113 | a neighbour's share is at most d times its weight when its deviation is at most d |
| CfPredict.NumeratorBound | src/collaborative_filtering.py:113-114 | when every rating neighbour deviates from its mean by at most d, the numerator is at most d·Σ\|sim\| in absolute value |
| CfPredict.QuotientBound | src/collaborative_filtering.py:103-115 | thanks to the 1e-8 term, num / den is at most d in absolute value |
| CfPredict.PredictionBounded | src/collaborative_filtering.py:113-115 | a prediction differs from the target's mean by at most the largest neighbour deviation |
| CfPredict.SelfContributesNothing | src/collaborative_filtering.py:106-114 | for a movie the target has not rated, dropping the target from the neighbours changes neither numerator, weight sum nor the mask |
| CfPredict.Predictable | src/collaborative_filtering.py:104-109 | the candidates surviving the `col > 0` mask are those some neighbour rated positively |
| CfPredict.EveryCandidatePredictable | src/collaborative_filtering.py:104-109 | with positive ratings every candidate survives the mask |
| CfPredict.PredictAll | src/collaborative_filtering.py:102-116 | the loop yields one prediction per predictable candidate, no candidate twice, each the formula's value |
| CfPredict.AppendScored | src/collaborative_filtering.py:115-116 | appending a candidate's prediction keeps every pair's score equal to the formula |
| CfRecommend.SelfExcluded | src/collaborative_filtering.py:64 | the target's own similarity is 0 and every other is unchanged |
| CfRecommend.RenderPredictions | src/collaborative_filtering.py:123-129 | rows ranked from 1 carry the movie id of each column, its catalog title and genres, and its score |
| CfRecommend.RankedPredictions | src/collaborative_filtering.py:121-129 | the sorted, cut and rendered predictions form a ranked table over the predictable candidates |
| CfRecommend.RenderedOrder | src/collaborative_filtering.py:121-124 | rendered scores are non-increasing and no movie appears twice |
| CfRecommend.RenderedBest | src/collaborative_filtering.py:121-122 | no predictable movie left out has a higher prediction than a movie shown |
| CfRecommend.RecommendForUser | src/collaborative_filtering.py:49-130 | unknown user ⇒ the not-found error; the popularity table exactly when there is no candidate; otherwise `min(top_n, #predictable)` rows ranked by prediction, each the formula's value for an unrated movie, the best ones shown |
| CfRecommend.RecommendsOnlyUnrated | src/collaborative_filtering.py:71-80 | a personalised table never shows a movie whose column the target's row stores |
| CfRecommend.FittedRecommendsOnlyUnrated | src/collaborative_filtering.py:71-80 | for a fitted bundle, no recommended movie is one the user has a rating event for |
| Popularity.CountFor | src/collaborative_filtering.py:85-86 | a movie's count is at most the number of events, and 0 exactly when no event rates it |
| Popularity.MeanFor | src/collaborative_filtering.py:86 | for a rated movie, mean × count is the sum of its ratings |
| Popularity.CountPositive | src/collaborative_filtering.py:85-86 | each movie in the grouped table has at least one rating |
| Popularity.GroupStats | src/collaborative_filtering.py:85-86 | one row per rated movie, in increasing id order, each row that movie's count and mean |
| Popularity.Eligible | src/collaborative_filtering.py:87 | the query keeps exactly the rows with count ≥ `min_ratings_per_item`, in order |
| Popularity.EligibleRows | src/collaborative_filtering.py:85-87 | the eligible rows are exactly the statistics of the eligible movies, one per movie |
| Popularity.RankedStats | src/collaborative_filtering.py:88-89 | sorting by (mean, count) descending and taking `top_n` keeps the best distinct eligible movies |
| Popularity.PopularityRanking | src/collaborative_filtering.py:84-89 | group, keep `count >= min`, sort by (mean, count) descending and take `top_n`; its properties are stated by PopularityFacts |
| Popularity.LeftOutRankLower | src/collaborative_filtering.py:88-89 | no eligible movie cut off ranks above one shown |
| Popularity.PopularityFacts | src/collaborative_filtering.py:84-89 | the head of the popularity ranking has `min(top_n, #eligible)` distinct eligible movies, ordered and best-first |
| Popularity.RenderPopular | src/collaborative_filtering.py:92-95 | rows ranked from 1 with id, catalog title and genres, mean as predicted rating and count as number of ratings |
| Popularity.RenderedFacts | src/collaborative_filtering.py:92-95 | the rendered table keeps the ranking's order, distinctness and best-first property |
| Popularity.PopularityList | src/collaborative_filtering.py:82-96 | the fallback table: `min(top_n, #eligible)` rows ranked from 1, each an eligible movie with its count and mean, ordered by (mean, count) descending, none left out ranking higher |
| Scenarios.ParseOne | src/content_based.py:6-11 | every genre string that is not blank, not the sentinel and has no pipe parses to itself as the only tag (leading spaces included) |
| Scenarios.ParseTwo | src/content_based.py:6-11 | `"g\|h"` with any pipe-free parts, empty or blank ones included, parses to the two tags `g` and `h` |
| Scenarios.FirstMovieGenres | src/content_based.py:15 | in the three-movie catalog, `"Action\|Comedy"` gives the tags Action and Comedy |
| Scenarios.SecondMovieGenres | src/content_based.py:15 | in the three-movie catalog, `"Action"` gives the single tag Action |
| Scenarios.ThirdMovieGenres | src/content_based.py:15 | in the three-movie catalog, `"Comedy"` gives the single tag Comedy |
| Scenarios.TitleIndexOfThree | src/content_based.py:21 | over three distinct titles, the first maps to row 0 and an absent title has no entry |
| Scenarios.ThreeMoviesTitles | src/content_based.py:21 | the fitted title lookup of the three-movie catalog maps the first title to row 0 and lacks an unknown title |
| Scenarios.ThreeMoviesByTitle | src/content_based.py:24-34 | for any cosine index of the three-movie catalog, asking for two movies like the first returns the other two, both with positive similarity, and not the movie itself |
| Scenarios.UnknownTitle | src/content_based.py:25-26 | a title missing from the catalog is reported as not found |
| Scenarios.FiveEventsIds | src/collaborative_filtering.py:8-11 | the five-event log has users 1, 2, 3 and movies 10, 20, in ascending order |
| Scenarios.FiveEventsMaps | src/collaborative_filtering.py:10-11 | the index maps send users 1, 2, 3 to rows 0, 1, 2 and movies 10, 20 to columns 0, 1, and know no user 999 |
| Scenarios.MatrixStep | src/collaborative_filtering.py:15-20 | one more event adds its rating into its user's row at its movie's column and changes no other row |
| Scenarios.FirstTwoEvents | src/collaborative_filtering.py:15-20 | user 1's two events fill row 0 with 5 at column 0 and 3 at column 1 |
| Scenarios.LaterEventsKeepRow | src/collaborative_filtering.py:15-20 | events of other users leave row 0 as it was |
| Scenarios.FiveEventsRow | src/collaborative_filtering.py:15-20 | the matrix built from the five events has row 0 equal to [5 at column 0, 3 at column 1] |
| Scenarios.RowFiveThree | src/collaborative_filtering.py:23-31 | the row [5, 3] has mean 4 and centres to [1, −1] |
| Scenarios.FiveEventsFit | src/collaborative_filtering.py:6-32 | fitting the five-event log gives user 1 row 0, mean 4, and centred row [1, −1] |

## Left out

- Reading CSV files, pandas and NumPy plumbing, and the user interface are not modelled. Data frames are sequences of `Movie` and `Rating` records.
- The cosine similarity computation is not modelled, because the model has no square root.
  - In the content model, `cosine_similarity(genre_features)` is a parameter constrained by `IsCosineIndex`.
  - In the collaborative filter, the row of `cosine_similarity(target_row, mat_c)` is the parameter `sims`. `_top_k_similar_users` returns that row unchanged and ignores `k`, so it has no member of its own.
- Floating point is not modelled: values are reals. This covers the `float32` cast of the ratings, `np.nan_to_num` of the means (no NaN can arise with reals and the `max(1, nnz)` guard), and rounding in the prediction formula.
- `pd.isna(genre_str)`: a missing genres value is not modelled. Genres are always strings.
- Tie order is not fully modelled:
  - `np.argsort` and `list.sort` are modelled as a stable sort, in which ties keep index or insertion order. NumPy's default sort is not stable, so the model picks one of the orders the source allows.
  - In `sort_values(["mean", "count"])`, ties keep increasing movie id order.
- Python set iteration order of `cand_items` is not modelled. `PredictAll` picks the next candidate by choice, so its contract holds for every order.
- `title_to_index` maps to the data frame's index labels, and `iloc` selects by position. The model identifies them, which is right for the default 0..M−1 index.
- Left joins with duplicate catalog ids are not modelled: pandas would repeat the row, while `Catalog.FindMovie` takes the first catalog row with the id.
- Integer widths are not modelled: `top_n` and `k` are natural numbers, so Python's slicing with a negative bound is not modelled.
- `CfModel.RatingMatrixCells`: repeated (user, movie) events are summed into one cell, as the sparse constructor does. The cell-by-cell statement is proved only when there is no such repeat. `RatingMatrixColumns` covers the general case for columns.
- A movie's cosine similarity with itself is 1 only when it has genres. For a movie without genres it is 0, because scikit-learn gives 0 for the cosine of a zero vector (`CosineSelf`).
- `np.argsort`'s default sort is not stable, so the order of equally similar movies is not determined by the code. The model fixes one admissible order, as above.
- `ContentBased.FitContentModel`: scikit-learn's `cosine_similarity` raises `ValueError` on a feature matrix with no rows (an empty catalog) or no columns (no movie has any genre). These exceptions are not modelled: for such a catalog `IsCosineIndex` admits the empty or the all-zero matrix, and `CosineSelf` then reports similarity 0 where the source raises.
