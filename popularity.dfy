/**
 * The popularity fallback of `recommend_for_user`: rating count and mean per movie, the
 * movies with enough ratings, ordered by mean and then count (both descending), the first
 * `top_n` of them joined with the catalog.
 */
module Popularity {

  import opened Catalog
  import opened Ranking
  import opened CfModel

  /** One row of `groupby("movieId")["rating"].agg(["count", "mean"])`. */
  datatype MovieStat = MovieStat(movieId: int, count: nat, mean: real)

  /** How many events rate movie `id`. */
  function CountFor(ratings: seq<Rating>, id: int): (n: nat)
    ensures n <= |ratings|
    ensures n == 0 <==> forall r :: r in ratings ==> r.movieId != id
  {
    if ratings == [] then 0
    else
      assert ratings == [ratings[0]] + ratings[1..];
      (if ratings[0].movieId == id then 1 else 0) + CountFor(ratings[1..], id)
  }

  /** The sum of the ratings of movie `id`. */
  function SumFor(ratings: seq<Rating>, id: int): real
  {
    if ratings == [] then 0.0
    else (if ratings[0].movieId == id then ratings[0].rating else 0.0) + SumFor(ratings[1..], id)
  }

  /** The mean rating of movie `id` over its events. */
  function MeanFor(ratings: seq<Rating>, id: int): (m: real)
    ensures CountFor(ratings, id) > 0 ==> m * (CountFor(ratings, id) as real) == SumFor(ratings, id)
  {
    var n := CountFor(ratings, id);
    if n == 0 then 0.0 else SumFor(ratings, id) / (n as real)
  }

  function StatOf(ratings: seq<Rating>, id: int): MovieStat
  {
    MovieStat(id, CountFor(ratings, id), MeanFor(ratings, id))
  }

  predicate IdsIncreasing(stats: seq<MovieStat>)
  {
    forall i, j :: 0 <= i < j < |stats| ==> stats[i].movieId < stats[j].movieId
  }

  /** A movie that occurs in the events has at least one rating. */
  lemma CountPositive(ratings: seq<Rating>, id: int)
    requires id in Elems(MovieIds(ratings))
    ensures CountFor(ratings, id) >= 1
  {
    var j :| 0 <= j < |MovieIds(ratings)| && MovieIds(ratings)[j] == id;
    assert ratings[j] in ratings;
  }

  function StatsOver(ratings: seq<Rating>, ids: seq<int>): (stats: seq<MovieStat>)
    ensures |stats| == |ids| && forall i :: 0 <= i < |ids| ==> stats[i] == StatOf(ratings, ids[i])
  {
    seq(|ids|, i requires 0 <= i < |ids| => StatOf(ratings, ids[i]))
  }

  /** The grouped table: one row per distinct movie id, in ascending id order, each with at least one rating. */
  function GroupStats(ratings: seq<Rating>): (stats: seq<MovieStat>)
    ensures |stats| == |Elems(MovieIds(ratings))|
    ensures IdsIncreasing(stats)
    ensures forall x :: x in stats <==> x.movieId in Elems(MovieIds(ratings)) && x == StatOf(ratings, x.movieId)
    ensures forall x :: x in stats ==> x.count >= 1
  {
    var ids := SortedIds(MovieIds(ratings));
    IncreasingCard(ids);
    GroupStatsMembers(ratings, ids);
    StatsOver(ratings, ids)
  }

  lemma GroupStatsMembers(ratings: seq<Rating>, ids: seq<int>)
    requires Elems(ids) == Elems(MovieIds(ratings))
    ensures forall x :: x in StatsOver(ratings, ids) <==> x.movieId in Elems(MovieIds(ratings)) && x == StatOf(ratings, x.movieId)
    ensures forall x :: x in StatsOver(ratings, ids) ==> x.count >= 1
  {
    var stats := StatsOver(ratings, ids);
    forall x | x in stats ensures x.movieId in Elems(MovieIds(ratings)) && x == StatOf(ratings, x.movieId) && x.count >= 1
    {
      var i :| 0 <= i < |stats| && stats[i] == x;
      assert ids[i] in Elems(ids);
      CountPositive(ratings, x.movieId);
    }
    forall x: MovieStat | x.movieId in Elems(MovieIds(ratings)) && x == StatOf(ratings, x.movieId) ensures x in stats
    {
      var i :| 0 <= i < |ids| && ids[i] == x.movieId;
      assert stats[i] == x;
    }
  }

  /** `.query("count >= @min_ratings_per_item")`: keeps the rows with enough ratings, in order. */
  function Eligible(stats: seq<MovieStat>, minRatings: int): (e: seq<MovieStat>)
    ensures forall x :: x in e <==> x in stats && x.count >= minRatings
    ensures IdsIncreasing(stats) ==> IdsIncreasing(e)
  {
    if stats == [] then []
    else
      var rest := Eligible(stats[1..], minRatings);
      IncreasingTail(stats, rest);
      if stats[0].count >= minRatings then
        IncreasingCons(stats[0], rest);
        [stats[0]] + rest
      else rest
  }

  lemma IncreasingTail(stats: seq<MovieStat>, rest: seq<MovieStat>)
    requires |stats| > 0 && forall x :: x in rest ==> x in stats[1..]
    ensures IdsIncreasing(stats) ==> IdsIncreasing(stats[1..])
    ensures IdsIncreasing(stats) ==> forall x :: x in rest ==> stats[0].movieId < x.movieId
  {
    if IdsIncreasing(stats) {
      forall x | x in rest ensures stats[0].movieId < x.movieId
      {
        var i :| 0 <= i < |stats[1..]| && stats[1..][i] == x;
        assert stats[i + 1] == x;
      }
    }
  }

  lemma IncreasingCons(x: MovieStat, rest: seq<MovieStat>)
    ensures (forall y :: y in rest ==> x.movieId < y.movieId) && IdsIncreasing(rest) ==> IdsIncreasing([x] + rest)
    ensures forall y :: y in [x] + rest <==> y == x || y in rest
  {
    assert forall k :: 0 <= k < |rest| ==> rest[k] in rest;
  }

  /** The sort key of `sort_values(["mean", "count"], ascending=[False, False])`. */
  function StatKey(x: MovieStat): Key
  {
    Key(x.mean, x.count as real)
  }

  function Keyed(stats: seq<MovieStat>): (r: seq<Ranked<MovieStat>>)
    ensures |r| == |stats| && forall i :: 0 <= i < |stats| ==> r[i] == Ranked(stats[i], StatKey(stats[i]))
    ensures Items(r) == stats
  {
    seq(|stats|, i requires 0 <= i < |stats| => Ranked(stats[i], StatKey(stats[i])))
  }

  /** The movies rated at least `minRatings` times. */
  function EligibleIds(ratings: seq<Rating>, minRatings: int): set<int>
  {
    set id | id in Elems(MovieIds(ratings)) && CountFor(ratings, id) >= minRatings
  }

  /** Sorted by mean, then count, both descending, ties in ascending id order; the first `topN`. */
  function PopularityRanking(ratings: seq<Rating>, minRatings: int, topN: nat): seq<Ranked<MovieStat>>
  {
    Take(SortDesc(Keyed(Eligible(GroupStats(ratings), minRatings))), topN)
  }

  function TopIds(top: seq<Ranked<MovieStat>>): set<int>
  {
    set x | x in top :: x.item.movieId
  }

  /** The eligible rows are exactly the statistics of the eligible movies, one per movie. */
  lemma EligibleRows(ratings: seq<Rating>, minRatings: int)
    ensures var e := Eligible(GroupStats(ratings), minRatings);
      && IdsIncreasing(e)
      && Distinct(e)
      && |e| == |EligibleIds(ratings, minRatings)|
      && (forall x :: x in e <==> x.movieId in EligibleIds(ratings, minRatings) && x == StatOf(ratings, x.movieId))
  {
    var e := Eligible(GroupStats(ratings), minRatings);
    var ids := StatIds(e);
    IncreasingCard(ids);
    EligibleIdsOfRows(ratings, minRatings);
  }

  function StatIds(e: seq<MovieStat>): (ids: seq<int>)
    ensures |ids| == |e| && forall i :: 0 <= i < |e| ==> ids[i] == e[i].movieId
    ensures IdsIncreasing(e) ==> Increasing(ids)
  {
    seq(|e|, i requires 0 <= i < |e| => e[i].movieId)
  }

  lemma EligibleIdsOfRows(ratings: seq<Rating>, minRatings: int)
    ensures Elems(StatIds(Eligible(GroupStats(ratings), minRatings))) == EligibleIds(ratings, minRatings)
  {
    var e := Eligible(GroupStats(ratings), minRatings);
    var ids := StatIds(e);
    forall id | id in EligibleIds(ratings, minRatings) ensures id in Elems(ids)
    {
      var x := StatOf(ratings, id);
      assert x in e;
      var i :| 0 <= i < |e| && e[i] == x;
      assert ids[i] == id;
    }
    forall id | id in Elems(ids) ensures id in EligibleIds(ratings, minRatings)
    {
      var i :| 0 <= i < |ids| && ids[i] == id;
      assert e[i] in e;
    }
  }

  /**
   * The ranked head of the popularity table: `Min(topN, #eligible)` rows of eligible movies,
   * each the movie's own statistics, ordered by (mean, count) descending, one row per movie,
   * and no eligible movie left out ranks above a movie shown.
   */
  lemma PopularityFacts(ratings: seq<Rating>, minRatings: int, topN: nat)
    ensures var top := PopularityRanking(ratings, minRatings, topN);
      && |top| == Min(topN, |EligibleIds(ratings, minRatings)|)
      && Descending(top)
      && (forall k :: 0 <= k < |top| ==>
            top[k].item.movieId in EligibleIds(ratings, minRatings)
            && top[k].item == StatOf(ratings, top[k].item.movieId)
            && top[k].key == StatKey(top[k].item))
      && (forall i, j :: 0 <= i < |top| && 0 <= j < |top| && i != j ==> top[i].item.movieId != top[j].item.movieId)
      && (forall id, k :: id in EligibleIds(ratings, minRatings) && id !in TopIds(top) && 0 <= k < |top| ==>
            KeyLe(StatKey(StatOf(ratings, id)), top[k].key))
  {
    EligibleRows(ratings, minRatings);
    RankedStats(ratings, Eligible(GroupStats(ratings), minRatings), EligibleIds(ratings, minRatings), topN);
  }

  /** Sorting and cutting a duplicate-free table of per-movie statistics. */
  lemma RankedStats(ratings: seq<Rating>, e: seq<MovieStat>, ids: set<int>, topN: nat)
    requires Distinct(e) && |e| == |ids|
    requires forall x :: x in e <==> x.movieId in ids && x == StatOf(ratings, x.movieId)
    ensures var top := Take(SortDesc(Keyed(e)), topN);
      && |top| == Min(topN, |ids|)
      && Descending(top)
      && (forall k :: 0 <= k < |top| ==>
            top[k].item.movieId in ids
            && top[k].item == StatOf(ratings, top[k].item.movieId)
            && top[k].key == StatKey(top[k].item))
      && (forall i, j :: 0 <= i < |top| && 0 <= j < |top| && i != j ==> top[i].item.movieId != top[j].item.movieId)
      && (forall id, k :: id in ids && id !in TopIds(top) && 0 <= k < |top| ==>
            KeyLe(StatKey(StatOf(ratings, id)), top[k].key))
  {
    var s := Keyed(e);
    var top := Take(SortDesc(s), topN);
    SortTakeFacts(s, topN);
    ShownStats(ratings, e, ids, s, top);
    ShownIdsDistinct(ratings, top);
    LeftOutRankLower(ratings, e, ids, s, top);
  }

  lemma ShownStats(ratings: seq<Rating>, e: seq<MovieStat>, ids: set<int>, s: seq<Ranked<MovieStat>>, top: seq<Ranked<MovieStat>>)
    requires s == Keyed(e) && forall x :: x in top ==> x in s
    requires forall x :: x in e <==> x.movieId in ids && x == StatOf(ratings, x.movieId)
    ensures forall k :: 0 <= k < |top| ==>
      top[k].item.movieId in ids
      && top[k].item == StatOf(ratings, top[k].item.movieId)
      && top[k].key == StatKey(top[k].item)
  {
    forall k | 0 <= k < |top|
      ensures top[k].item in e && top[k].key == StatKey(top[k].item)
    {
      assert top[k] in top;
      var i :| 0 <= i < |s| && s[i] == top[k];
    }
  }

  /** Distinct statistics rows of the form `StatOf(id)` have distinct ids. */
  lemma ShownIdsDistinct(ratings: seq<Rating>, top: seq<Ranked<MovieStat>>)
    requires Distinct(Items(top))
    requires forall k :: 0 <= k < |top| ==> top[k].item == StatOf(ratings, top[k].item.movieId)
    ensures forall i, j :: 0 <= i < |top| && 0 <= j < |top| && i != j ==> top[i].item.movieId != top[j].item.movieId
  {
    forall i, j | 0 <= i < |top| && 0 <= j < |top| && i != j ensures top[i].item.movieId != top[j].item.movieId
    {
      assert Items(top)[i] != Items(top)[j];
    }
  }

  lemma LeftOutRankLower(ratings: seq<Rating>, e: seq<MovieStat>, ids: set<int>, s: seq<Ranked<MovieStat>>, top: seq<Ranked<MovieStat>>)
    requires s == Keyed(e)
    requires forall x :: x in e <==> x.movieId in ids && x == StatOf(ratings, x.movieId)
    requires forall x, y :: x in s && x !in top && y in top ==> KeyLe(x.key, y.key)
    ensures forall id, k :: id in ids && id !in TopIds(top) && 0 <= k < |top| ==>
      KeyLe(StatKey(StatOf(ratings, id)), top[k].key)
  {
    forall id, k | id in ids && id !in TopIds(top) && 0 <= k < |top|
      ensures KeyLe(StatKey(StatOf(ratings, id)), top[k].key)
    {
      var x := StatOf(ratings, id);
      assert x in e;
      var i :| 0 <= i < |e| && e[i] == x;
      assert s[i] in s;
      assert top[k] in top;
      assert s[i] !in top;
    }
  }

  /** One row of the fallback table: rank, id, catalog title and genres (None when absent), mean, count. */
  datatype PopularRow = PopularRow(
    rank: nat,
    movieId: int,
    title: Option<string>,
    genres: Option<string>,
    predictedRating: real,
    numRatings: nat)

  function RowKey(row: PopularRow): Key
  {
    Key(row.predictedRating, row.numRatings as real)
  }

  function ShownIds(rows: seq<PopularRow>): set<int>
  {
    set r | r in rows :: r.movieId
  }

  /** `.head(top_n).reset_index().merge(movies_df, how="left")` with ranks from 1. */
  function RenderPopular(top: seq<Ranked<MovieStat>>, movies: seq<Movie>): (rows: seq<PopularRow>)
    ensures |rows| == |top|
    ensures forall k :: 0 <= k < |top| ==> rows[k] == PopularRow(k + 1, top[k].item.movieId,
      TitleOf(movies, top[k].item.movieId), GenresOf(movies, top[k].item.movieId), top[k].item.mean, top[k].item.count)
    ensures ShownIds(rows) == TopIds(top)
  {
    var rows := seq(|top|, k requires 0 <= k < |top| =>
      var st := top[k].item;
      PopularRow(k + 1, st.movieId, TitleOf(movies, st.movieId), GenresOf(movies, st.movieId), st.mean, st.count));
    assert ShownIds(rows) == TopIds(top) by {
      forall id | id in TopIds(top) ensures id in ShownIds(rows)
      {
        var x :| x in top && x.item.movieId == id;
        var k :| 0 <= k < |top| && top[k] == x;
        assert rows[k] in rows;
      }
      forall id | id in ShownIds(rows) ensures id in TopIds(top)
      {
        var r :| r in rows && r.movieId == id;
        var k :| 0 <= k < |rows| && rows[k] == r;
        assert top[k] in top;
      }
    }
    rows
  }

  /**
   * A fallback row shows one of the movies `ids`: its rating count (at least one), its mean
   * rating as the predicted rating, and its catalog title and genres.
   */
  predicate ShowsStat(ratings: seq<Rating>, movies: seq<Movie>, ids: set<int>, row: PopularRow)
  {
    && row.movieId in ids
    && row.numRatings == CountFor(ratings, row.movieId) >= 1
    && row.predictedRating * (row.numRatings as real) == SumFor(ratings, row.movieId)
    && row.title == TitleOf(movies, row.movieId)
    && row.genres == GenresOf(movies, row.movieId)
  }

  /** The rendered rows carry over everything known about the ranked statistics they come from. */
  lemma RenderedFacts(ratings: seq<Rating>, movies: seq<Movie>, top: seq<Ranked<MovieStat>>, ids: set<int>, rows: seq<PopularRow>)
    requires forall id :: id in ids ==> id in Elems(MovieIds(ratings))
    requires Descending(top)
    requires forall k :: 0 <= k < |top| ==>
      top[k].item.movieId in ids && top[k].item == StatOf(ratings, top[k].item.movieId) && top[k].key == StatKey(top[k].item)
    requires forall i, j :: 0 <= i < |top| && 0 <= j < |top| && i != j ==> top[i].item.movieId != top[j].item.movieId
    requires forall id, k :: id in ids && id !in TopIds(top) && 0 <= k < |top| ==> KeyLe(StatKey(StatOf(ratings, id)), top[k].key)
    requires rows == RenderPopular(top, movies)
    ensures
      && (forall k :: 0 <= k < |rows| ==>
        rows[k].rank == k + 1 && ShowsStat(ratings, movies, ids, rows[k]))
      && (forall i, j :: 0 <= i < j < |rows| ==> KeyLe(RowKey(rows[j]), RowKey(rows[i])) && rows[i].movieId != rows[j].movieId)
      && (forall id, k :: id in ids && id !in ShownIds(rows) && 0 <= k < |rows| ==> KeyLe(StatKey(StatOf(ratings, id)), RowKey(rows[k])))
  {
    forall k | 0 <= k < |rows|
      ensures RowKey(rows[k]) == top[k].key && rows[k].numRatings == CountFor(ratings, rows[k].movieId) >= 1
      ensures rows[k].predictedRating * (rows[k].numRatings as real) == SumFor(ratings, rows[k].movieId)
    {
      CountPositive(ratings, rows[k].movieId);
    }
  }

  /**
   * The fallback table: the `topN` most popular movies with at least `minRatings` ratings,
   * ranked from 1, with their mean as the predicted rating and their rating count.
   */
  function PopularityList(ratings: seq<Rating>, movies: seq<Movie>, topN: nat, minRatings: int): (rows: seq<PopularRow>)
    ensures |rows| == Min(topN, |EligibleIds(ratings, minRatings)|)
    ensures forall k :: 0 <= k < |rows| ==>
      rows[k].rank == k + 1 && ShowsStat(ratings, movies, EligibleIds(ratings, minRatings), rows[k])
    ensures forall i, j :: 0 <= i < j < |rows| ==> KeyLe(RowKey(rows[j]), RowKey(rows[i])) && rows[i].movieId != rows[j].movieId
    ensures forall id, k :: id in EligibleIds(ratings, minRatings) && id !in ShownIds(rows) && 0 <= k < |rows| ==>
      KeyLe(StatKey(StatOf(ratings, id)), RowKey(rows[k]))
  {
    var top := PopularityRanking(ratings, minRatings, topN);
    PopularityFacts(ratings, minRatings, topN);
    var rows := RenderPopular(top, movies);
    RenderedFacts(ratings, movies, top, EligibleIds(ratings, minRatings), rows);
    rows
  }
}
