/**
 * `recommend_for_user`: the target's neighbourhood, the candidate movies, the personalised
 * ranking and the popularity fallback, over a fitted bundle.
 */
module CfRecommend {

  import opened Catalog
  import opened Ranking
  import opened CfModel
  import opened CfPredict
  import opened Popularity

  /** The `ValueError` raised for a user id the bundle does not know. */
  datatype CfError = UserNotFound(userId: int)

  /** One row of the personalised table: rank, movie id, catalog title and genres, predicted rating. */
  datatype PredictedRow = PredictedRow(
    rank: nat,
    movieId: int,
    title: Option<string>,
    genres: Option<string>,
    predictedRating: real)

  /** The two shapes of result: the personalised table, or the popularity table when there is no candidate. */
  datatype Recommendations = Personalized(rows: seq<PredictedRow>) | Popular(popular: seq<PopularRow>)

  /** The similarities with the target's own entry set to 0. */
  function SelfExcluded(sims: seq<real>, u: nat): (s: seq<real>)
    requires u < |sims|
    ensures |s| == |sims| && s[u] == 0.0
    ensures forall v :: 0 <= v < |sims| && v != u ==> s[v] == sims[v]
  {
    sims[u := 0.0]
  }

  function PredictedIds(rows: seq<PredictedRow>): set<int>
  {
    set r | r in rows :: r.movieId
  }

  /**
   * A personalised row shows a predictable candidate column `c`: the movie id the column
   * stands for, that movie's catalog title and genres, and the prediction for `c`.
   */
  predicate ShowsPrediction(b: CfBundle, movies: seq<Movie>, sims: seq<real>, ns: seq<nat>, u: nat,
                            p: set<nat>, row: PredictedRow)
    requires ValidBundle(b) && Fits(b.mat, b.userMeans, sims, ns) && u < |b.mat|
  {
    && row.movieId in b.movieIdToIdx
    && b.movieIdToIdx[row.movieId] in p
    && b.movieIdToIdx[row.movieId] in b.idxToMovieId
    && b.idxToMovieId[b.movieIdToIdx[row.movieId]] == row.movieId
    && row.predictedRating == Predict(b.mat, b.userMeans, sims, ns, u, b.movieIdToIdx[row.movieId])
    && row.title == TitleOf(movies, row.movieId)
    && row.genres == GenresOf(movies, row.movieId)
  }

  /**
   * `rows` is a personalised table for the predictable columns `p`: `Min(topN, |p|)` rows ranked
   * from 1, one per movie, by non-increasing prediction, and no predictable movie left out is
   * predicted higher than a movie shown.
   */
  predicate RanksPredictions(b: CfBundle, movies: seq<Movie>, sims: seq<real>, ns: seq<nat>, u: nat,
                             p: set<nat>, topN: nat, rows: seq<PredictedRow>)
    requires ValidBundle(b) && Fits(b.mat, b.userMeans, sims, ns) && u < |b.mat|
  {
    && |rows| == Min(topN, |p|)
    && (forall k :: 0 <= k < |rows| ==> rows[k].rank == k + 1 && ShowsPrediction(b, movies, sims, ns, u, p, rows[k]))
    && (forall i, j :: 0 <= i < j < |rows| ==>
          rows[j].predictedRating <= rows[i].predictedRating && rows[i].movieId != rows[j].movieId)
    && (forall c, k :: c in p && c in b.idxToMovieId && b.idxToMovieId[c] !in PredictedIds(rows) && 0 <= k < |rows| ==>
          Predict(b.mat, b.userMeans, sims, ns, u, c) <= rows[k].predictedRating)
  }

  /** Every column some user has an entry in names a movie. */
  lemma ColumnsNamed(b: CfBundle, cs: set<nat>, ns: seq<nat>)
    requires ValidBundle(b) && InRange(ns, |b.mat|)
    requires forall c :: c in cs ==> exists j :: 0 <= j < |ns| && c in Cols(b.mat[ns[j]])
    ensures forall c :: c in cs ==> c in b.idxToMovieId
  {
    forall c | c in cs ensures c in b.idxToMovieId
    {
      var j :| 0 <= j < |ns| && c in Cols(b.mat[ns[j]]);
      var e :| e in b.mat[ns[j]] && e.col == c;
    }
  }

  /** `pd.DataFrame({"movieId": ..., "predicted_rating": ...}).merge(movies_df, how="left")` with ranks from 1. */
  function RenderPredictions(top: seq<Ranked<nat>>, idxToMovieId: map<nat, int>, movies: seq<Movie>): (rows: seq<PredictedRow>)
    requires forall k :: 0 <= k < |top| ==> top[k].item in idxToMovieId
    ensures |rows| == |top|
    ensures forall k :: 0 <= k < |top| ==> rows[k] == PredictedRow(k + 1, idxToMovieId[top[k].item],
      TitleOf(movies, idxToMovieId[top[k].item]), GenresOf(movies, idxToMovieId[top[k].item]), top[k].key.primary)
  {
    seq(|top|, k requires 0 <= k < |top| =>
      var id := idxToMovieId[top[k].item];
      PredictedRow(k + 1, id, TitleOf(movies, id), GenresOf(movies, id), top[k].key.primary))
  }

  /**
   * Sorting the scored predictions, keeping the first `topN` and rendering them yields a
   * personalised table for the predictable columns.
   */
  lemma RankedPredictions(b: CfBundle, movies: seq<Movie>, sims: seq<real>, ns: seq<nat>, u: nat,
                          cands: set<nat>, preds: seq<Ranked<nat>>, topN: nat)
    requires ValidBundle(b) && Fits(b.mat, b.userMeans, sims, ns) && u < |b.mat|
    requires forall c :: c in cands ==> c in b.idxToMovieId
    requires Distinct(Items(preds))
    requires Elems(Items(preds)) == Predictable(b.mat, ns, cands)
    requires Scored(b.mat, b.userMeans, sims, ns, u, preds)
    ensures var top := Take(SortDesc(preds), topN);
      && (forall k :: 0 <= k < |top| ==> top[k].item in b.idxToMovieId)
      && RanksPredictions(b, movies, sims, ns, u, Predictable(b.mat, ns, cands), topN,
                          RenderPredictions(top, b.idxToMovieId, movies))
  {
    var p := Predictable(b.mat, ns, cands);
    var top := Take(SortDesc(preds), topN);
    SortTakeFacts(preds, topN);
    DistinctElemsCard(Items(preds));
    forall k | 0 <= k < |top|
      ensures top[k] in preds && top[k].item in p && top[k].item in b.idxToMovieId
    {
      assert top[k] in top;
      var i :| 0 <= i < |preds| && preds[i] == top[k];
      assert Items(preds)[i] == top[k].item;
    }
    var rows := RenderPredictions(top, b.idxToMovieId, movies);
    RenderedRows(b, movies, sims, ns, u, p, preds, top, rows);
    RenderedOrder(b, sims, ns, u, preds, top, rows);
    RenderedBest(b, sims, ns, u, p, preds, top, rows);
  }

  lemma RenderedRows(b: CfBundle, movies: seq<Movie>, sims: seq<real>, ns: seq<nat>, u: nat, p: set<nat>,
                     preds: seq<Ranked<nat>>, top: seq<Ranked<nat>>, rows: seq<PredictedRow>)
    requires ValidBundle(b) && Fits(b.mat, b.userMeans, sims, ns) && u < |b.mat|
    requires Scored(b.mat, b.userMeans, sims, ns, u, preds)
    requires forall k :: 0 <= k < |top| ==> top[k] in preds && top[k].item in p && top[k].item in b.idxToMovieId
    requires rows == RenderPredictions(top, b.idxToMovieId, movies)
    ensures forall k :: 0 <= k < |rows| ==> rows[k].rank == k + 1 && ShowsPrediction(b, movies, sims, ns, u, p, rows[k])
  {
    forall k | 0 <= k < |rows|
      ensures rows[k].rank == k + 1 && ShowsPrediction(b, movies, sims, ns, u, p, rows[k])
    {
      KeyOfPrediction(b, sims, ns, u, preds, top[k]);
    }
  }

  lemma RenderedOrder(b: CfBundle, sims: seq<real>, ns: seq<nat>, u: nat,
                      preds: seq<Ranked<nat>>, top: seq<Ranked<nat>>, rows: seq<PredictedRow>)
    requires ValidBundle(b) && Fits(b.mat, b.userMeans, sims, ns) && u < |b.mat|
    requires Descending(top) && Distinct(Items(top))
    requires forall k :: 0 <= k < |top| ==> top[k].item in b.idxToMovieId
    requires |rows| == |top|
    requires forall k :: 0 <= k < |top| ==> rows[k].movieId == b.idxToMovieId[top[k].item] && rows[k].predictedRating == top[k].key.primary
    ensures forall i, j :: 0 <= i < j < |rows| ==>
      rows[j].predictedRating <= rows[i].predictedRating && rows[i].movieId != rows[j].movieId
  {
    forall i, j | 0 <= i < j < |rows|
      ensures rows[j].predictedRating <= rows[i].predictedRating && rows[i].movieId != rows[j].movieId
    {
      assert KeyLe(top[j].key, top[i].key);
      assert Items(top)[i] != Items(top)[j];
    }
  }

  lemma RenderedBest(b: CfBundle, sims: seq<real>, ns: seq<nat>, u: nat, p: set<nat>,
                     preds: seq<Ranked<nat>>, top: seq<Ranked<nat>>, rows: seq<PredictedRow>)
    requires ValidBundle(b) && Fits(b.mat, b.userMeans, sims, ns) && u < |b.mat|
    requires Scored(b.mat, b.userMeans, sims, ns, u, preds)
    requires Elems(Items(preds)) == p
    requires forall x, y :: x in preds && x !in top && y in top ==> KeyLe(x.key, y.key)
    requires forall k :: 0 <= k < |top| ==> top[k] in preds && top[k].item in b.idxToMovieId
    requires |rows| == |top|
    requires forall k :: 0 <= k < |top| ==> rows[k].movieId == b.idxToMovieId[top[k].item] && rows[k].predictedRating == top[k].key.primary
    ensures forall c, k :: c in p && c in b.idxToMovieId && b.idxToMovieId[c] !in PredictedIds(rows) && 0 <= k < |rows| ==>
      Predict(b.mat, b.userMeans, sims, ns, u, c) <= rows[k].predictedRating
  {
    forall c, k | c in p && c in b.idxToMovieId && b.idxToMovieId[c] !in PredictedIds(rows) && 0 <= k < |rows|
      ensures Predict(b.mat, b.userMeans, sims, ns, u, c) <= rows[k].predictedRating
    {
      assert c in Elems(Items(preds));
      var i :| 0 <= i < |preds| && Items(preds)[i] == c;
      var x := preds[i];
      assert x in preds;
      forall m | 0 <= m < |top| ensures top[m] != x
      {
        assert rows[m] in rows;
      }
      assert top[k] in top;
      KeyOfPrediction(b, sims, ns, u, preds, x);
      KeyOfPrediction(b, sims, ns, u, preds, top[k]);
    }
  }

  /** A scored entry is keyed by its prediction, with secondary key 0. */
  lemma KeyOfPrediction(b: CfBundle, sims: seq<real>, ns: seq<nat>, u: nat, preds: seq<Ranked<nat>>, x: Ranked<nat>)
    requires Fits(b.mat, b.userMeans, sims, ns) && u < |b.mat|
    requires Scored(b.mat, b.userMeans, sims, ns, u, preds)
    requires x in preds
    ensures x.key == Key(Predict(b.mat, b.userMeans, sims, ns, u, x.item), 0.0)
  {
    var i :| 0 <= i < |preds| && preds[i] == x;
  }

  /**
   * `recommend_for_user`. `sims` holds the cosine similarities of the target's centred row
   * to every user's centred row, in user index order (the result of `_top_k_similar_users`).
   * An unknown user is an error; without candidates the popularity table is returned;
   * otherwise the personalised table of the predictable candidates.
   */
  method RecommendForUser(userId: int, b: CfBundle, movies: seq<Movie>, ratings: seq<Rating>,
                          topN: nat, k: nat, minRatings: int, sims: seq<real>)
    returns (r: Result<Recommendations, CfError>)
    requires ValidBundle(b) && |sims| == |b.mat|
    ensures r.Err? <==> userId !in b.userIdToIdx
    ensures r.Err? ==> r.error == UserNotFound(userId)
    ensures r.Ok? ==>
      var u := b.userIdToIdx[userId];
      var s := SelfExcluded(sims, u);
      var ns := Neighbors(s, k);
      var cands := Candidates(b.mat, u, ns);
      && (r.value.Popular? <==> cands == {})
      && (r.value.Popular? ==> r.value.popular == PopularityList(ratings, movies, topN, minRatings))
      && (r.value.Personalized? ==>
            RanksPredictions(b, movies, s, ns, u, Predictable(b.mat, ns, cands), topN, r.value.rows))
  {
    if userId !in b.userIdToIdx {
      return Err(UserNotFound(userId));
    }
    var u := b.userIdToIdx[userId];
    var s := SelfExcluded(sims, u);
    var ns := Neighbors(s, k);
    var cand := CollectCandidates(b.mat, ns);
    var cands := cand - Cols(b.mat[u]);
    assert cands == Candidates(b.mat, u, ns);
    if cands == {} {
      return Ok(Popular(PopularityList(ratings, movies, topN, minRatings)));
    }
    var preds := PredictAll(b.mat, b.userMeans, s, ns, u, cands);
    ColumnsNamed(b, cands, ns);
    RankedPredictions(b, movies, s, ns, u, cands, preds, topN);
    if preds == [] {
      return Ok(Personalized([]));
    }
    var top := Take(SortDesc(preds), topN);
    return Ok(Personalized(RenderPredictions(top, b.idxToMovieId, movies)));
  }

  /** No personalised row is a movie the target has an entry for. */
  lemma RecommendsOnlyUnrated(b: CfBundle, movies: seq<Movie>, sims: seq<real>, ns: seq<nat>, u: nat,
                              topN: nat, rows: seq<PredictedRow>)
    requires ValidBundle(b) && Fits(b.mat, b.userMeans, sims, ns) && u < |b.mat|
    requires RanksPredictions(b, movies, sims, ns, u, Predictable(b.mat, ns, Candidates(b.mat, u, ns)), topN, rows)
    ensures forall k :: 0 <= k < |rows| ==> b.movieIdToIdx[rows[k].movieId] !in Cols(b.mat[u])
  {
    forall k | 0 <= k < |rows| ensures b.movieIdToIdx[rows[k].movieId] !in Cols(b.mat[u])
    {
      assert ShowsPrediction(b, movies, sims, ns, u, Predictable(b.mat, ns, Candidates(b.mat, u, ns)), rows[k]);
    }
  }

  /**
   * Over a bundle fitted from `ratings`, no personalised row is a movie the target user has
   * rated in `ratings`.
   */
  lemma FittedRecommendsOnlyUnrated(ratings: seq<Rating>, b: CfBundle, movies: seq<Movie>, sims: seq<real>,
                                    ns: seq<nat>, userId: int, topN: nat, rows: seq<PredictedRow>)
    requires b.userIdToIdx == IndexMap(SortedIds(UserIds(ratings)))
    requires b.movieIdToIdx == IndexMap(SortedIds(MovieIds(ratings)))
    requires Indexes(ratings, b.userIdToIdx, b.movieIdToIdx, |SortedIds(UserIds(ratings))|)
    requires b.mat == RatingMatrix(ratings, b.userIdToIdx, b.movieIdToIdx, |SortedIds(UserIds(ratings))|)
    requires ValidBundle(b) && userId in b.userIdToIdx
    requires Fits(b.mat, b.userMeans, sims, ns)
    requires var u := b.userIdToIdx[userId];
      RanksPredictions(b, movies, sims, ns, u, Predictable(b.mat, ns, Candidates(b.mat, u, ns)), topN, rows)
    ensures forall e, k :: e in ratings && e.userId == userId && 0 <= k < |rows| ==> rows[k].movieId != e.movieId
  {
    var u := b.userIdToIdx[userId];
    var n := |SortedIds(UserIds(ratings))|;
    RatingMatrixColumns(ratings, b.userIdToIdx, b.movieIdToIdx, n);
    RecommendsOnlyUnrated(b, movies, sims, ns, u, topN, rows);
    forall e, k | e in ratings && e.userId == userId && 0 <= k < |rows| ensures rows[k].movieId != e.movieId
    {
      assert b.movieIdToIdx[e.movieId] in EventCols(ratings, b.userIdToIdx, b.movieIdToIdx, u);
    }
  }
}
