/**
 * Concrete catalogs and rating sets worked through the model: the three-movie genre example,
 * the five-event rating example, and the lookups of an unknown title and an unknown user.
 */
module Scenarios {

  import opened Catalog
  import opened Ranking
  import opened ContentBased
  import opened CfModel

  // ---------------------------------------------------------------------------
  // Content-based: "A" shares one genre with each of "B" and "C"
  // ---------------------------------------------------------------------------

  function ThreeMovies(): seq<Movie>
  {
    [Movie(1, "A (2000)", "Action|Comedy"), Movie(2, "B (2001)", "Action"), Movie(3, "C (2002)", "Comedy")]
  }

  /** A genre string that is not blank, not the sentinel and has no pipe parses to itself. */
  lemma ParseOne(g: string)
    requires !IsBlank(g) && g != NoGenres && Pipe !in g
    ensures ParseGenres(g) == [g]
  {
    SplitNoPipe(g);
  }

  /** Any two pipe-free pieces joined by a pipe parse to the two pieces, empty or blank ones included. */
  lemma ParseTwo(g: string, h: string)
    requires Pipe !in g && Pipe !in h
    ensures ParseGenres(g + [Pipe] + h) == [g, h]
  {
    var s := g + [Pipe] + h;
    assert s[|g|] == Pipe;
    assert !IsBlank(s);
    assert Pipe !in NoGenres;
    SplitNoPipe(h);
    SplitPrefix(g, h);
  }

  lemma FirstMovieGenres(movies: seq<Movie>)
    requires movies == ThreeMovies()
    ensures ParseGenres(movies[0].genres) == ["Action", "Comedy"]
  {
    var action, comedy := "Action", "Comedy";
    assert movies[0].genres == action + [Pipe] + comedy;
    ParseTwo(action, comedy);
  }

  lemma SecondMovieGenres(movies: seq<Movie>)
    requires movies == ThreeMovies()
    ensures ParseGenres(movies[1].genres) == ["Action"]
  {
    var action := "Action";
    assert action[0] == 'A' && |action| != |NoGenres|;
    ParseOne(action);
  }

  lemma ThirdMovieGenres(movies: seq<Movie>)
    requires movies == ThreeMovies()
    ensures ParseGenres(movies[2].genres) == ["Comedy"]
  {
    var comedy := "Comedy";
    assert comedy[0] == 'C' && |comedy| != |NoGenres|;
    ParseOne(comedy);
  }

  lemma ThreeMoviesTitles(movies: seq<Movie>)
    requires movies == ThreeMovies()
    ensures var m := FitContentModel(movies).titleToIndex;
      && "A (2000)" in m && m["A (2000)"] == 0
      && "Z (1999)" !in m
  {
    var titles := Titles(movies);
    assert titles == ["A (2000)", "B (2001)", "C (2002)"];
    TitleIndexOfThree(titles);
  }

  /** The title lookup over three distinct titles: the first is row 0 and an absent title has no row. */
  lemma TitleIndexOfThree(titles: seq<string>)
    requires titles == ["A (2000)", "B (2001)", "C (2002)"]
    ensures var m := TitleIndex(titles);
      && "A (2000)" in m && m["A (2000)"] == 0
      && "Z (1999)" !in m
  {
    assert titles[0] == "A (2000)" && titles[1][0] == 'B' && titles[2][0] == 'C';
    assert "A (2000)" in Elems(titles);
    assert titles[1] != "A (2000)" && titles[2] != "A (2000)";
    assert "Z (1999)" !in Elems(titles) by {
      forall t | t in titles ensures t != "Z (1999)"
      {
        var i :| 0 <= i < |titles| && titles[i] == t;
        assert t[0] != 'Z';
      }
    }
  }

  /**
   * With any cosine index of the fitted catalog, the two recommendations for "A (2000)"
   * are "B (2001)" and "C (2002)" (in either order), both with positive similarity.
   */
  lemma ThreeMoviesByTitle(movies: seq<Movie>, sim: seq<seq<real>>)
    requires movies == ThreeMovies()
    requires IsCosineIndex(sim, FitContentModel(movies).features)
    ensures var r := RecommendByTitle("A (2000)", sim, FitContentModel(movies).titleToIndex, movies, 2);
      && r.Ok? && |r.value| == 2
      && ((r.value[0].title == "B (2001)" && r.value[1].title == "C (2002)")
          || (r.value[0].title == "C (2002)" && r.value[1].title == "B (2001)"))
      && sim[0][1] > 0.0 && sim[0][2] > 0.0
  {
    FirstMovieGenres(movies);
    SecondMovieGenres(movies);
    ThirdMovieGenres(movies);
    ThreeMoviesTitles(movies);
    assert "Action" in ParseGenres(movies[0].genres) && "Action" in ParseGenres(movies[1].genres);
    assert "Comedy" in ParseGenres(movies[0].genres) && "Comedy" in ParseGenres(movies[2].genres);
    CosinePositiveIffShared(movies, sim, 0, 1);
    CosinePositiveIffShared(movies, sim, 0, 2);
    var r := RecommendByTitle("A (2000)", sim, FitContentModel(movies).titleToIndex, movies, 2);
    var rows := SimilarRows(sim[0], 0, 2);
    assert |rows| == 2 && rows[0] != rows[1] && 0 < rows[0] < 3 && 0 < rows[1] < 3;
    assert r.value[0].title == movies[rows[0]].title && r.value[1].title == movies[rows[1]].title;
    if rows[0] == 1 {
      assert rows[1] == 2;
    } else {
      assert rows[0] == 2 && rows[1] == 1;
    }
  }

  /** An unknown title is reported as not found. */
  lemma UnknownTitle(movies: seq<Movie>, sim: seq<seq<real>>)
    requires movies == ThreeMovies()
    requires IsCosineIndex(sim, FitContentModel(movies).features)
    ensures RecommendByTitle("Z (1999)", sim, FitContentModel(movies).titleToIndex, movies, 2)
        == Err(TitleNotFound("Z (1999)"))
  {
    ThreeMoviesTitles(movies);
  }

  // ---------------------------------------------------------------------------
  // Collaborative filtering: user 1 rated movie 10 with 5 and movie 20 with 3
  // ---------------------------------------------------------------------------

  function FiveEvents(): seq<Rating>
  {
    [Rating(1, 10, 5.0), Rating(1, 20, 3.0), Rating(2, 10, 4.0), Rating(2, 20, 2.0), Rating(3, 10, 1.0)]
  }

  lemma FiveEventsIds()
    ensures SortedIds(UserIds(FiveEvents())) == [1, 2, 3]
    ensures SortedIds(MovieIds(FiveEvents())) == [10, 20]
  {
    var r := FiveEvents();
    assert UserIds(r) == [1, 1, 2, 2, 3];
    assert MovieIds(r) == [10, 20, 10, 20, 10];
    assert Elems(UserIds(r)) == Elems([1, 2, 3]);
    assert Elems(MovieIds(r)) == Elems([10, 20]);
    IncreasingUnique(SortedIds(UserIds(r)), [1, 2, 3]);
    IncreasingUnique(SortedIds(MovieIds(r)), [10, 20]);
  }

  /** The fitted index maps of the five events: users 1, 2, 3 and movies 10, 20, in id order. */
  lemma FiveEventsMaps()
    ensures var um := IndexMap(SortedIds(UserIds(FiveEvents())));
      && 1 in um && 2 in um && 3 in um && um[1] == 0 && um[2] == 1 && um[3] == 2 && 999 !in um
    ensures var mm := IndexMap(SortedIds(MovieIds(FiveEvents())));
      && 10 in mm && 20 in mm && mm[10] == 0 && mm[20] == 1
  {
    FiveEventsIds();
    var us: seq<int> := [1, 2, 3];
    var ms: seq<int> := [10, 20];
    IndexMapFacts(us);
    IndexMapFacts(ms);
    assert us[0] == 1 && us[1] == 2 && us[2] == 3;
    assert ms[0] == 10 && ms[1] == 20;
    assert 999 !in Elems(us);
  }

  /** Building the matrix one more event: the event's row gets the event inserted. */
  lemma MatrixStep(init: seq<Rating>, e: Rating, um: map<int, nat>, mm: map<int, nat>, n: nat)
    requires Indexes(init + [e], um, mm, n)
    ensures Indexes(init, um, mm, n)
    ensures var m := RatingMatrix(init, um, mm, n);
      RatingMatrix(init + [e], um, mm, n) == m[um[e.userId] := InsertEntry(m[um[e.userId]], Entry(mm[e.movieId], e.rating))]
  {
    assert (init + [e])[..|init|] == init;
    assert (init + [e])[|init|] == e;
    assert forall x :: x in init ==> x in init + [e];
  }

  /** User row 0 after the first two events, both by user 1. */
  lemma FirstTwoEvents(r: seq<Rating>, um: map<int, nat>, mm: map<int, nat>)
    requires r == FiveEvents()
    requires 1 in um && 2 in um && 3 in um && um[1] == 0 && um[2] == 1 && um[3] == 2
    requires 10 in mm && 20 in mm && mm[10] == 0 && mm[20] == 1
    ensures Indexes(r[..2], um, mm, 3)
    ensures RatingMatrix(r[..2], um, mm, 3)[0] == [Entry(0, 5.0), Entry(1, 3.0)]
  {
    var r0: seq<Rating> := [];
    var r1 := r0 + [r[0]];
    assert r[..2] == r1 + [r[1]];
    MatrixStep(r1, r[1], um, mm, 3);
    MatrixStep(r0, r[0], um, mm, 3);
    assert RatingMatrix(r0, um, mm, 3)[0] == [];
    var first := RatingMatrix(r1, um, mm, 3)[0];
    assert first == [Entry(0, 5.0)];
    assert InsertEntry(first, Entry(1, 3.0)) == [Entry(0, 5.0), Entry(1, 3.0)];
  }

  /** The last three events belong to users 2 and 3, so user row 0 stays as it was. */
  lemma LaterEventsKeepRow(r: seq<Rating>, um: map<int, nat>, mm: map<int, nat>)
    requires r == FiveEvents()
    requires 1 in um && 2 in um && 3 in um && um[1] == 0 && um[2] == 1 && um[3] == 2
    requires 10 in mm && 20 in mm && mm[10] == 0 && mm[20] == 1
    ensures Indexes(r, um, mm, 3) && Indexes(r[..2], um, mm, 3)
    ensures RatingMatrix(r, um, mm, 3)[0] == RatingMatrix(r[..2], um, mm, 3)[0]
  {
    var r3 := r[..2] + [r[2]];
    var r4 := r3 + [r[3]];
    assert r == r4 + [r[4]];
    assert Indexes(r, um, mm, 3);
    MatrixStep(r4, r[4], um, mm, 3);
    MatrixStep(r3, r[3], um, mm, 3);
    MatrixStep(r[..2], r[2], um, mm, 3);
  }

  /** User row 0 of the matrix built from the five events. */
  lemma FiveEventsRow(r: seq<Rating>, um: map<int, nat>, mm: map<int, nat>)
    requires r == FiveEvents()
    requires 1 in um && 2 in um && 3 in um && um[1] == 0 && um[2] == 1 && um[3] == 2
    requires 10 in mm && 20 in mm && mm[10] == 0 && mm[20] == 1
    ensures Indexes(r, um, mm, 3)
    ensures RatingMatrix(r, um, mm, 3)[0] == [Entry(0, 5.0), Entry(1, 3.0)]
  {
    FirstTwoEvents(r, um, mm);
    LaterEventsKeepRow(r, um, mm);
  }

  /** The row [5, 3] has mean 4 and centres to [+1, -1]. */
  lemma RowFiveThree(row: Row)
    requires row == [Entry(0, 5.0), Entry(1, 3.0)]
    ensures Mean(row) == 4.0
    ensures CenterRow(row, Mean(row)) == [Entry(0, 1.0), Entry(1, -1.0)]
  {
    assert row[1..] == [Entry(1, 3.0)] && row[1..][1..] == [];
    assert RowSum(row[1..]) == 3.0 + RowSum(row[1..][1..]);
    assert RowSum(row) == 8.0;
    assert NonZeroCount(row[1..]) == 1 + NonZeroCount(row[1..][1..]);
    assert NonZeroCount(row) == 2;
  }

  /**
   * User 1 is row 0; its row stores 5 at movie 10's column and 3 at movie 20's; its mean is
   * (5 + 3) / 2 = 4; centred, the row is [+1, -1]; and user 999 has no index.
   */
  lemma FiveEventsFit()
    ensures var r := FiveEvents();
      var um := IndexMap(SortedIds(UserIds(r)));
      var mm := IndexMap(SortedIds(MovieIds(r)));
      && 1 in um && 10 in mm && 20 in mm
      && um[1] == 0 && mm[10] == 0 && mm[20] == 1 && 999 !in um
      && |SortedIds(UserIds(r))| == 3
      && Indexes(r, um, mm, 3)
      && var mat := RatingMatrix(r, um, mm, 3);
         var means := UserMeans(mat);
         && mat[0] == [Entry(0, 5.0), Entry(1, 3.0)]
         && means[0] == 4.0
         && CenterMatrix(mat, means)[0] == [Entry(0, 1.0), Entry(1, -1.0)]
  {
    var r := FiveEvents();
    FiveEventsIds();
    FiveEventsMaps();
    var um := IndexMap(SortedIds(UserIds(r)));
    var mm := IndexMap(SortedIds(MovieIds(r)));
    FiveEventsRow(r, um, mm);
    var mat := RatingMatrix(r, um, mm, 3);
    RowFiveThree(mat[0]);
  }
}
