/** Shared tables of the dataset and small helper types used by both engines. */
module Catalog {

  datatype Option<+T> = None | Some(value: T)

  /** The recommenders raise an exception on a missing key; the model returns `Err`. */
  datatype Result<+T, +E> = Ok(value: T) | Err(error: E)

  /** One row of the movie catalog: `movieId`, `title` and the raw pipe-delimited `genres`. */
  datatype Movie = Movie(movieId: int, title: string, genres: string)

  /** One rating event: `userId`, `movieId`, `rating`. */
  datatype Rating = Rating(userId: int, movieId: int, rating: real)

  /** The set of elements of a sequence. */
  function Elems<T>(s: seq<T>): set<T>
  {
    set x | x in s
  }

  function Min(a: int, b: int): (r: int)
    ensures r <= a && r <= b && (r == a || r == b)
  {
    if a <= b then a else b
  }

  /** The catalog's movie ids are unique, so a left merge on `movieId` yields at most one row per key. */
  predicate UniqueMovieIds(movies: seq<Movie>)
  {
    forall i, j :: 0 <= i < |movies| && 0 <= j < |movies| && i != j ==> movies[i].movieId != movies[j].movieId
  }

  /** The catalog row a left merge on `movieId` attaches to a result row, or `None` (NaN columns) when absent. */
  function FindMovie(movies: seq<Movie>, id: int): (r: Option<Movie>)
    ensures r.Some? ==> r.value in movies && r.value.movieId == id
    ensures r.None? <==> forall m :: m in movies ==> m.movieId != id
  {
    if movies == [] then None
    else if movies[0].movieId == id then Some(movies[0])
    else FindMovie(movies[1..], id)
  }

  /** With unique ids the merged row is the catalog row that carries the id. */
  lemma {:induction false} FindMovieAt(movies: seq<Movie>, i: nat)
    requires UniqueMovieIds(movies)
    requires i < |movies|
    ensures FindMovie(movies, movies[i].movieId) == Some(movies[i])
  {
    if i > 0 {
      assert movies[0].movieId != movies[i].movieId;
      assert UniqueMovieIds(movies[1..]) by {
        forall a, b | 0 <= a < |movies| - 1 && 0 <= b < |movies| - 1 && a != b
          ensures movies[1..][a].movieId != movies[1..][b].movieId
        {
          assert movies[1..][a] == movies[a + 1] && movies[1..][b] == movies[b + 1];
        }
      }
      FindMovieAt(movies[1..], i - 1);
    }
  }

  /** Title and genres columns after the left merge: NaN (None) when the id is not in the catalog. */
  function TitleOf(movies: seq<Movie>, id: int): (t: Option<string>)
    ensures t.Some? <==> FindMovie(movies, id).Some?
  {
    match FindMovie(movies, id)
    case Some(m) => Some(m.title)
    case None => None
  }

  function GenresOf(movies: seq<Movie>, id: int): (g: Option<string>)
    ensures g.Some? <==> FindMovie(movies, id).Some?
  {
    match FindMovie(movies, id)
    case Some(m) => Some(m.genres)
    case None => None
  }
}
