/**
 * Building the collaborative-filtering bundle (`fit_cf_model`): dense indices for the sorted
 * user and movie ids, the sparse user x item rating matrix, per-user means over present
 * ratings, and the mean-centred copy whose present entries are rewritten row by row.
 */
module CfModel {

  import opened Catalog
  import opened Ranking

  // ---------------------------------------------------------------------------
  // Id <-> index maps
  // ---------------------------------------------------------------------------

  predicate Increasing(s: seq<int>)
  {
    forall i, j :: 0 <= i < j < |s| ==> s[i] < s[j]
  }

  function InsertId(s: seq<int>, x: int): (r: seq<int>)
    requires Increasing(s)
    ensures Increasing(r)
    ensures Elems(r) == Elems(s) + {x}
  {
    if |s| == 0 then [x]
    else if x < s[0] then
      InsertIdFront(s, x);
      [x] + s
    else if x == s[0] then s
    else
      var rest := InsertId(s[1..], x);
      InsertIdBehind(s, x, rest);
      [s[0]] + rest
  }

  lemma InsertIdFront(s: seq<int>, x: int)
    requires Increasing(s) && |s| > 0 && x < s[0]
    ensures Increasing([x] + s) && Elems([x] + s) == Elems(s) + {x}
  {
    assert forall i :: 0 <= i < |s| ==> s[0] <= s[i];
  }

  lemma InsertIdBehind(s: seq<int>, x: int, rest: seq<int>)
    requires Increasing(s) && |s| > 0 && s[0] < x
    requires Increasing(rest) && Elems(rest) == Elems(s[1..]) + {x}
    ensures Increasing([s[0]] + rest) && Elems([s[0]] + rest) == Elems(s) + {x}
  {
    var r := [s[0]] + rest;
    forall i | 0 <= i < |rest| ensures s[0] < rest[i]
    {
      assert rest[i] in Elems(rest);
      if rest[i] != x {
        var j :| 0 <= j < |s[1..]| && s[1..][j] == rest[i];
        assert s[j + 1] == rest[i];
      }
    }
    forall i, j | 0 <= i < j < |r| ensures r[i] < r[j]
    {
      if i > 0 {
        assert r[i] == rest[i - 1] && r[j] == rest[j - 1];
      } else {
        assert r[j] == rest[j - 1];
      }
    }
    ElemsCons(s[0], rest);
    ElemsCons(s[0], s[1..]);
    assert s == [s[0]] + s[1..];
  }

  lemma ElemsCons(h: int, t: seq<int>)
    ensures Elems([h] + t) == {h} + Elems(t)
  {
    assert forall y :: y in [h] + t <==> y == h || y in t;
  }

  /** `sorted(unique(ids))`. */
  function SortedIds(ids: seq<int>): (r: seq<int>)
    ensures Increasing(r)
    ensures Elems(r) == Elems(ids)
  {
    if ids == [] then []
    else
      var n := |ids| - 1;
      assert ids == ids[..n] + [ids[n]];
      InsertId(SortedIds(ids[..n]), ids[n])
  }

  lemma ElemsEmpty(s: seq<int>)
    ensures Elems(s) == {} ==> s == []
  {
    if s != [] { assert s[0] in Elems(s); }
  }

  /** The index assignment depends only on the set of ids: two increasing lists of the same ids are equal. */
  lemma {:induction false} IncreasingUnique(a: seq<int>, b: seq<int>)
    requires Increasing(a) && Increasing(b) && Elems(a) == Elems(b)
    ensures a == b
  {
    ElemsEmpty(a);
    ElemsEmpty(b);
    if a != [] && b != [] {
      assert a[0] in Elems(b) && b[0] in Elems(a);
      var i :| 0 <= i < |b| && b[i] == a[0];
      var j :| 0 <= j < |a| && a[j] == b[0];
      assert b[0] <= b[i];
      assert a[0] <= a[j];
      assert Elems(a) == {a[0]} + Elems(a[1..]) by { assert a == [a[0]] + a[1..]; }
      assert Elems(b) == {b[0]} + Elems(b[1..]) by { assert b == [b[0]] + b[1..]; }
      assert a[0] !in Elems(a[1..]) && b[0] !in Elems(b[1..]);
      IncreasingUnique(a[1..], b[1..]);
      assert a == [a[0]] + a[1..] && b == [b[0]] + b[1..];
    }
  }

  /** Building the bundle twice from events with the same ids gives the same index assignment. */
  lemma IndexAssignmentDeterministic(ids1: seq<int>, ids2: seq<int>)
    requires Elems(ids1) == Elems(ids2)
    ensures IndexMap(SortedIds(ids1)) == IndexMap(SortedIds(ids2))
  {
    IncreasingUnique(SortedIds(ids1), SortedIds(ids2));
  }

  /** `{id: i for i, id in enumerate(sorted_ids)}`. */
  function IndexMap(s: seq<int>): (m: map<int, nat>)
    requires Increasing(s)
    ensures forall i :: 0 <= i < |s| ==> s[i] in m && m[s[i]] == i
    ensures forall x :: x in m ==> m[x] < |s| && s[m[x]] == x
  {
    map i | 0 <= i < |s| :: s[i] := i
  }

  predicate Injective(m: map<int, nat>)
  {
    forall x, y :: x in m && y in m && x != y ==> m[x] != m[y]
  }

  /** `{i: id for id, i in m.items()}`. */
  function Invert(m: map<int, nat>): (inv: map<nat, int>)
    requires Injective(m)
    ensures forall x :: x in m ==> m[x] in inv && inv[m[x]] == x
    ensures forall i :: i in inv ==> inv[i] in m && m[inv[i]] == i
  {
    map x | x in m :: m[x] := x
  }

  function UserIds(ratings: seq<Rating>): (ids: seq<int>)
    ensures |ids| == |ratings| && forall i :: 0 <= i < |ratings| ==> ids[i] == ratings[i].userId
  {
    seq(|ratings|, i requires 0 <= i < |ratings| => ratings[i].userId)
  }

  function MovieIds(ratings: seq<Rating>): (ids: seq<int>)
    ensures |ids| == |ratings| && forall i :: 0 <= i < |ratings| ==> ids[i] == ratings[i].movieId
  {
    seq(|ratings|, i requires 0 <= i < |ratings| => ratings[i].movieId)
  }

  /** The positions of an increasing list: a bijection onto 0..|s|-1 that preserves order. */
  lemma IndexMapFacts(s: seq<int>)
    requires Increasing(s)
    ensures var m := IndexMap(s);
      && m.Keys == Elems(s)
      && (forall i :: 0 <= i < |s| ==> s[i] in m && m[s[i]] == i)
      && (forall x :: x in m ==> m[x] < |s| && s[m[x]] == x)
      && (forall x, y :: x in m && y in m ==> (x < y <==> m[x] < m[y]))
  {
    var m := IndexMap(s);
    forall x | x in m ensures m[x] < |s| && s[m[x]] == x
    {
      var i :| 0 <= i < |s| && s[i] == x;
    }
    forall x, y | x in m && y in m ensures x < y <==> m[x] < m[y]
    {
      assert s[m[x]] == x && s[m[y]] == y;
    }
  }

  lemma IncreasingCard(s: seq<int>)
    requires Increasing(s)
    ensures |Elems(s)| == |s|
  {
    DistinctElemsCard(s);
  }

  /**
   * `user_id_to_idx` / `movie_id_to_idx` over the distinct ids: a bijection from the ids onto
   * 0..n-1 that gives smaller ids smaller indices; `idx_to_movie_id` is its exact inverse.
   */
  lemma IdIndexBijection(ids: seq<int>)
    ensures var s := SortedIds(ids);
      var m := IndexMap(s);
      && m.Keys == Elems(ids)
      && |m| == |s| == |Elems(ids)|
      && (forall x :: x in m ==> m[x] < |s|)
      && (forall i :: 0 <= i < |s| ==> s[i] in m && m[s[i]] == i)
      && (forall x, y :: x in m && y in m ==> (x < y <==> m[x] < m[y]))
      && Injective(m)
      && var inv := Invert(m);
         && (forall i :: i in inv <==> 0 <= i < |s|)
         && (forall x :: x in m ==> inv[m[x]] == x)
         && (forall i :: i in inv ==> inv[i] in m && m[inv[i]] == i)
  {
    var s := SortedIds(ids);
    var m := IndexMap(s);
    IndexMapFacts(s);
    IncreasingCard(s);
    assert |m| == |m.Keys|;
    var inv := Invert(m);
    forall i | 0 <= i < |s| ensures i in inv { assert m[s[i]] == i; }
    forall x | x in m ensures inv[m[x]] == x {}
  }

  // ---------------------------------------------------------------------------
  // The sparse rating matrix
  // ---------------------------------------------------------------------------

  /** One stored entry of a sparse row: its column and value. */
  datatype Entry = Entry(col: nat, val: real)

  /** A sparse row: the stored entries, by increasing column. */
  type Row = seq<Entry>

  predicate ColsIncreasing(row: Row)
  {
    forall i, j :: 0 <= i < j < |row| ==> row[i].col < row[j].col
  }

  /** The row's `indices`: the columns it stores. */
  function Cols(row: Row): set<nat>
  {
    set e | e in row :: e.col
  }

  /**
   * Stores `e` in a row kept in column order; a second event for a column already present is
   * added to the stored value, as the COO-to-CSR conversion sums duplicate coordinates.
   */
  function InsertEntry(row: Row, e: Entry): (r: Row)
    ensures Cols(r) == Cols(row) + {e.col}
    ensures e.col !in Cols(row) ==> Elems(r) == Elems(row) + {e}
  {
    if row == [] then [e]
    else if e.col < row[0].col then [e] + row
    else if e.col == row[0].col then
      assert row == [row[0]] + row[1..];
      [Entry(e.col, row[0].val + e.val)] + row[1..]
    else
      var rest := InsertEntry(row[1..], e);
      assert row == [row[0]] + row[1..];
      assert Elems(row) == {row[0]} + Elems(row[1..]);
      assert Elems([row[0]] + rest) == {row[0]} + Elems(rest);
      assert Cols(row) == {row[0].col} + Cols(row[1..]);
      assert Cols([row[0]] + rest) == {row[0].col} + Cols(rest);
      [row[0]] + rest
  }

  lemma {:induction false} InsertEntrySorted(row: Row, e: Entry)
    requires ColsIncreasing(row)
    ensures ColsIncreasing(InsertEntry(row, e))
  {
    if row != [] && e.col > row[0].col {
      var t := row[1..];
      TailFacts(row);
      InsertEntrySorted(t, e);
      InsertEntryAbove(t, e, row[0].col);
      var rest := InsertEntry(t, e);
      assert forall k :: 0 <= k < |rest| ==> rest[k] in rest;
    } else if row != [] && e.col == row[0].col {
      TailFacts(row);
    }
  }

  lemma TailFacts(row: Row)
    requires row != [] && ColsIncreasing(row)
    ensures ColsIncreasing(row[1..])
    ensures forall x :: x in row[1..] ==> row[0].col < x.col
  {
    var t := row[1..];
    forall i, j | 0 <= i < j < |t| ensures t[i].col < t[j].col { assert t[i] == row[i + 1] && t[j] == row[j + 1]; }
    forall x | x in t ensures row[0].col < x.col
    {
      var m :| 0 <= m < |t| && t[m] == x;
      assert t[m] == row[m + 1];
    }
  }

  lemma InsertEntryAbove(row: Row, e: Entry, c: nat)
    requires forall x :: x in row ==> c < x.col
    requires c < e.col
    ensures forall x :: x in InsertEntry(row, e) ==> c < x.col
  {
    var r := InsertEntry(row, e);
    forall x | x in r ensures c < x.col
    {
      assert x.col in Cols(r);
      if x.col != e.col {
        var y: Entry :| y in row && y.col == x.col;
      }
    }
  }

  /**
   * A second event for a stored column adds its value into that cell: the row keeps its length and
   * every other entry stays where and what it was.
   */
  lemma {:induction false} InsertEntrySums(row: Row, e: Entry)
    requires ColsIncreasing(row) && e.col in Cols(row)
    ensures |InsertEntry(row, e)| == |row|
    ensures forall k :: 0 <= k < |row| ==>
      InsertEntry(row, e)[k] == (if row[k].col == e.col then Entry(e.col, row[k].val + e.val) else row[k])
  {
    var x :| x in row && x.col == e.col;
    TailFacts(row);
    if e.col == row[0].col {
      SumAtHead(row, e);
    } else {
      var t := row[1..];
      assert row == [row[0]] + t;
      assert x in t;
      assert row[0].col < e.col;
      assert e.col in Cols(t);
      InsertEntrySums(t, e);
      SumBehindHead(row, e);
    }
  }

  lemma SumAtHead(row: Row, e: Entry)
    requires row != [] && e.col == row[0].col
    requires forall x :: x in row[1..] ==> row[0].col < x.col
    ensures |InsertEntry(row, e)| == |row|
    ensures forall k :: 0 <= k < |row| ==>
      InsertEntry(row, e)[k] == (if row[k].col == e.col then Entry(e.col, row[k].val + e.val) else row[k])
  {
    var r := InsertEntry(row, e);
    assert r == [Entry(e.col, row[0].val + e.val)] + row[1..];
    forall k | 1 <= k < |row| ensures r[k] == row[k] && row[k].col != e.col
    {
      assert row[k] == row[1..][k - 1];
    }
  }

  lemma SumBehindHead(row: Row, e: Entry)
    requires row != [] && row[0].col < e.col
    requires |InsertEntry(row[1..], e)| == |row[1..]|
    requires forall k :: 0 <= k < |row[1..]| ==>
      InsertEntry(row[1..], e)[k] == (if row[1..][k].col == e.col then Entry(e.col, row[1..][k].val + e.val) else row[1..][k])
    ensures |InsertEntry(row, e)| == |row|
    ensures forall k :: 0 <= k < |row| ==>
      InsertEntry(row, e)[k] == (if row[k].col == e.col then Entry(e.col, row[k].val + e.val) else row[k])
  {
    var r := InsertEntry(row, e);
    var rest := InsertEntry(row[1..], e);
    assert r == [row[0]] + rest;
    forall k | 1 <= k < |row|
      ensures r[k] == (if row[k].col == e.col then Entry(e.col, row[k].val + e.val) else row[k])
    {
      assert r[k] == rest[k - 1] && row[k] == row[1..][k - 1];
    }
  }

  /** At most one rating event per (user, movie) pair. */
  predicate NoDuplicatePairs(ratings: seq<Rating>)
  {
    forall i, j :: 0 <= i < j < |ratings| ==>
      ratings[i].userId != ratings[j].userId || ratings[i].movieId != ratings[j].movieId
  }

  /** The id maps cover every event and send users into 0..nUsers-1. */
  predicate Indexes(ratings: seq<Rating>, um: map<int, nat>, mm: map<int, nat>, nUsers: nat)
  {
    forall r :: r in ratings ==> r.userId in um && um[r.userId] < nUsers && r.movieId in mm
  }

  /** `csr_matrix((data, (rows, cols)))`: each event stored in its user's row at its movie's column. */
  function RatingMatrix(ratings: seq<Rating>, um: map<int, nat>, mm: map<int, nat>, nUsers: nat): (m: seq<Row>)
    requires Indexes(ratings, um, mm, nUsers)
    ensures |m| == nUsers
  {
    if ratings == [] then seq(nUsers, _ => [])
    else
      var n := |ratings| - 1;
      var e := ratings[n];
      assert ratings[n] in ratings;
      assert forall r :: r in ratings[..n] ==> r in ratings;
      var m := RatingMatrix(ratings[..n], um, mm, nUsers);
      var u := um[e.userId];
      m[u := InsertEntry(m[u], Entry(mm[e.movieId], e.rating))]
  }

  /** The entries that the events of user row `u` contribute. */
  function EventsOfRow(ratings: seq<Rating>, um: map<int, nat>, mm: map<int, nat>, u: nat): set<Entry>
  {
    set r | r in ratings && r.userId in um && r.movieId in mm && um[r.userId] == u :: Entry(mm[r.movieId], r.rating)
  }

  /** The columns of the movies user row `u` has events for. */
  function EventCols(ratings: seq<Rating>, um: map<int, nat>, mm: map<int, nat>, u: nat): set<nat>
  {
    set r | r in ratings && r.userId in um && r.movieId in mm && um[r.userId] == u :: mm[r.movieId]
  }

  /** A user row stores exactly the columns of the movies that user rated (duplicates share one cell). */
  lemma {:induction false} RatingMatrixColumns(ratings: seq<Rating>, um: map<int, nat>, mm: map<int, nat>, nUsers: nat)
    requires Indexes(ratings, um, mm, nUsers)
    ensures var m := RatingMatrix(ratings, um, mm, nUsers);
      forall u :: 0 <= u < nUsers ==> Cols(m[u]) == EventCols(ratings, um, mm, u)
  {
    var m := RatingMatrix(ratings, um, mm, nUsers);
    if ratings != [] {
      var n := |ratings| - 1;
      var init := ratings[..n];
      var e := ratings[n];
      assert ratings == init + [e];
      assert e in ratings;
      assert forall r :: r in init ==> r in ratings;
      RatingMatrixColumns(init, um, mm, nUsers);
      forall u | 0 <= u < nUsers ensures Cols(m[u]) == EventCols(ratings, um, mm, u)
      {
        EventColsSnoc(init, e, um, mm, u);
      }
    }
  }

  lemma EventColsSnoc(init: seq<Rating>, e: Rating, um: map<int, nat>, mm: map<int, nat>, u: nat)
    requires e.userId in um && e.movieId in mm
    ensures EventCols(init + [e], um, mm, u)
      == EventCols(init, um, mm, u) + (if um[e.userId] == u then {mm[e.movieId]} else {})
  {
    var all := init + [e];
    forall x | x in EventCols(all, um, mm, u)
      ensures x in EventCols(init, um, mm, u) || (um[e.userId] == u && x == mm[e.movieId])
    {
      var r :| r in all && r.userId in um && r.movieId in mm && um[r.userId] == u && x == mm[r.movieId];
      if r != e { assert r in init; }
    }
    forall x | x in EventCols(init, um, mm, u) ensures x in EventCols(all, um, mm, u)
    {
      var r :| r in init && r.userId in um && r.movieId in mm && um[r.userId] == u && x == mm[r.movieId];
      assert r in all;
    }
    if um[e.userId] == u {
      assert e in all;
    }
  }

  /**
   * With at most one event per (user, movie) pair, each event lands at row `um[userId]`,
   * column `mm[movieId]` with its own rating, and nothing else is stored.
   */
  lemma {:induction false} RatingMatrixCells(ratings: seq<Rating>, um: map<int, nat>, mm: map<int, nat>, nUsers: nat)
    requires Indexes(ratings, um, mm, nUsers)
    requires NoDuplicatePairs(ratings) && Injective(um) && Injective(mm)
    ensures var m := RatingMatrix(ratings, um, mm, nUsers);
      forall u :: 0 <= u < nUsers ==> Elems(m[u]) == EventsOfRow(ratings, um, mm, u)
  {
    var m := RatingMatrix(ratings, um, mm, nUsers);
    if ratings != [] {
      var n := |ratings| - 1;
      var init := ratings[..n];
      var e := ratings[n];
      assert ratings == init + [e];
      assert e in ratings;
      assert forall r :: r in init ==> r in ratings;
      assert NoDuplicatePairs(init) by {
        forall i, j | 0 <= i < j < |init|
          ensures init[i].userId != init[j].userId || init[i].movieId != init[j].movieId
        {
          assert init[i] == ratings[i] && init[j] == ratings[j];
        }
      }
      RatingMatrixCells(init, um, mm, nUsers);
      NewColumnFree(ratings, um, mm, nUsers);
      forall u | 0 <= u < nUsers ensures Elems(m[u]) == EventsOfRow(ratings, um, mm, u)
      {
        EventsOfRowSnoc(init, e, um, mm, u);
      }
    }
  }

  /** Every row of the rating matrix is strictly ordered by column. */
  lemma {:induction false} RatingMatrixSorted(ratings: seq<Rating>, um: map<int, nat>, mm: map<int, nat>, nUsers: nat)
    requires Indexes(ratings, um, mm, nUsers)
    ensures forall u :: 0 <= u < nUsers ==> ColsIncreasing(RatingMatrix(ratings, um, mm, nUsers)[u])
  {
    if ratings != [] {
      var n := |ratings| - 1;
      var init := ratings[..n];
      var e := ratings[n];
      assert e in ratings;
      assert forall r :: r in init ==> r in ratings;
      RatingMatrixSorted(init, um, mm, nUsers);
      var m0 := RatingMatrix(init, um, mm, nUsers);
      var ue := um[e.userId];
      assert ue < nUsers;
      InsertEntrySorted(m0[ue], Entry(mm[e.movieId], e.rating));
      assert RatingMatrix(ratings, um, mm, nUsers) == m0[ue := InsertEntry(m0[ue], Entry(mm[e.movieId], e.rating))];
    }
  }

  /** The last event's column is not yet stored in its user's row of the matrix built from the events before it. */
  lemma NewColumnFree(ratings: seq<Rating>, um: map<int, nat>, mm: map<int, nat>, nUsers: nat)
    requires Indexes(ratings, um, mm, nUsers) && ratings != []
    requires NoDuplicatePairs(ratings) && Injective(um) && Injective(mm)
    requires var init := ratings[..|ratings| - 1];
      Indexes(init, um, mm, nUsers)
      && forall u :: 0 <= u < nUsers ==> Elems(RatingMatrix(init, um, mm, nUsers)[u]) == EventsOfRow(init, um, mm, u)
    ensures var n := |ratings| - 1; var e := ratings[n];
      e.userId in um && e.movieId in mm && um[e.userId] < nUsers &&
      mm[e.movieId] !in Cols(RatingMatrix(ratings[..n], um, mm, nUsers)[um[e.userId]])
  {
    var n := |ratings| - 1;
    var init := ratings[..n];
    var e := ratings[n];
    assert e in ratings;
    var u := um[e.userId];
    var row := RatingMatrix(init, um, mm, nUsers)[u];
    forall x: Entry | x in row ensures x.col != mm[e.movieId]
    {
      assert x in Elems(row);
      var r :| r in init && r.userId in um && r.movieId in mm && um[r.userId] == u
        && x == Entry(mm[r.movieId], r.rating);
      var i :| 0 <= i < n && init[i] == r;
      assert ratings[i] == r;
      assert r.userId == e.userId;
    }
  }

  lemma EventsOfRowSnoc(init: seq<Rating>, e: Rating, um: map<int, nat>, mm: map<int, nat>, u: nat)
    requires e.userId in um && e.movieId in mm
    ensures EventsOfRow(init + [e], um, mm, u)
      == EventsOfRow(init, um, mm, u) + (if um[e.userId] == u then {Entry(mm[e.movieId], e.rating)} else {})
  {
    var all := init + [e];
    forall x | x in EventsOfRow(all, um, mm, u)
      ensures x in EventsOfRow(init, um, mm, u) || (um[e.userId] == u && x == Entry(mm[e.movieId], e.rating))
    {
      var r :| r in all && r.userId in um && r.movieId in mm && um[r.userId] == u && x == Entry(mm[r.movieId], r.rating);
      if r != e { assert r in init; }
    }
    forall x | x in EventsOfRow(init, um, mm, u) ensures x in EventsOfRow(all, um, mm, u)
    {
      var r :| r in init && r.userId in um && r.movieId in mm && um[r.userId] == u && x == Entry(mm[r.movieId], r.rating);
      assert r in all;
    }
    if um[e.userId] == u {
      assert e in all;
    }
  }

  // ---------------------------------------------------------------------------
  // Per-user means
  // ---------------------------------------------------------------------------

  function RowSum(row: Row): real
  {
    if row == [] then 0.0 else row[0].val + RowSum(row[1..])
  }

  /** `(mat != 0).sum(axis=1)` for one row. */
  function NonZeroCount(row: Row): nat
  {
    if row == [] then 0 else (if row[0].val != 0.0 then 1 else 0) + NonZeroCount(row[1..])
  }

  /** `row.sum() / max(1, nnz)`: the user's mean, guarded against an empty row. */
  function Mean(row: Row): (mu: real)
    ensures NonZeroCount(row) > 0 ==> mu * (NonZeroCount(row) as real) == RowSum(row)
    ensures NonZeroCount(row) == 0 ==> mu == RowSum(row)
  {
    var nnz := NonZeroCount(row);
    RowSum(row) / (if nnz < 1 then 1 else nnz) as real
  }

  function UserMeans(m: seq<Row>): (means: seq<real>)
    ensures |means| == |m| && forall u :: 0 <= u < |m| ==> means[u] == Mean(m[u])
  {
    seq(|m|, u requires 0 <= u < |m| => Mean(m[u]))
  }

  predicate PositiveValues(row: Row)
  {
    forall e :: e in row ==> e.val > 0.0
  }

  lemma {:induction false} NonZeroCountPositive(row: Row)
    requires PositiveValues(row)
    ensures NonZeroCount(row) == |row|
  {
    if row != [] {
      assert row[0] in row;
      assert forall e :: e in row[1..] ==> e in row;
      NonZeroCountPositive(row[1..]);
    }
  }

  /**
   * With positive ratings the guarded mean is the mean of the present ratings:
   * mean * count == sum for a non-empty row, and exactly 0 for an empty row.
   */
  lemma MeanOfPresentRatings(row: Row)
    requires PositiveValues(row)
    ensures row == [] ==> Mean(row) == 0.0
    ensures row != [] ==> Mean(row) * (|row| as real) == RowSum(row)
  {
    NonZeroCountPositive(row);
    if row != [] {
      var n := |row| as real;
      assert Mean(row) == RowSum(row) / n;
    }
  }

  lemma RowSumBounds(row: Row, lo: real, hi: real)
    requires forall e :: e in row ==> lo <= e.val <= hi
    ensures lo * (|row| as real) <= RowSum(row) <= hi * (|row| as real)
  {
    RowSumBetween(row, lo, hi);
    RepeatIsProduct(lo, |row|);
    RepeatIsProduct(hi, |row|);
  }

  /** `x` added `n` times. */
  function Repeat(x: real, n: nat): real
  {
    if n == 0 then 0.0 else x + Repeat(x, n - 1)
  }

  lemma {:induction false} RowSumBetween(row: Row, lo: real, hi: real)
    requires forall e :: e in row ==> lo <= e.val <= hi
    ensures Repeat(lo, |row|) <= RowSum(row) <= Repeat(hi, |row|)
  {
    if |row| > 0 {
      var t := row[1..];
      assert row[0] in row;
      assert forall e :: e in t ==> e in row;
      RowSumBetween(t, lo, hi);
    }
  }

  lemma {:induction false} RepeatIsProduct(x: real, n: nat)
    ensures Repeat(x, n) == x * (n as real)
  {
    if n > 0 {
      RepeatIsProduct(x, n - 1);
      ProductStep(x, n);
    }
  }

  lemma ProductStep(x: real, n: nat)
    requires n > 0
    ensures x * (n as real) == x * ((n - 1) as real) + x
  {
  }

  /** The mean of a non-empty row of positive ratings lies between its smallest and largest rating. */
  lemma MeanWithinBounds(row: Row, lo: real, hi: real)
    requires row != [] && 0.0 < lo
    requires forall e :: e in row ==> lo <= e.val <= hi
    ensures lo <= Mean(row) <= hi
  {
    NonZeroCountPositive(row);
    RowSumBounds(row, lo, hi);
    var n := |row| as real;
    assert Mean(row) == RowSum(row) / n;
    QuotientBounds(RowSum(row), n, lo, hi);
  }

  lemma QuotientBounds(total: real, n: real, lo: real, hi: real)
    requires n > 0.0 && lo * n <= total <= hi * n
    ensures lo <= total / n <= hi
  {
    assert (total / n) * n == total;
    assert (total / n - lo) * n >= 0.0;
    assert (hi - total / n) * n >= 0.0;
  }

  // ---------------------------------------------------------------------------
  // Mean-centring
  // ---------------------------------------------------------------------------

  /** `[val - mu for val in vals]`. */
  function Shift(vals: seq<real>, mu: real): (r: seq<real>)
    ensures |r| == |vals| && forall i :: 0 <= i < |vals| ==> r[i] == vals[i] - mu
  {
    seq(|vals|, i requires 0 <= i < |vals| => vals[i] - mu)
  }

  /** A row with `mu` subtracted from every present value; its columns stay as they are. */
  function CenterRow(row: Row, mu: real): (r: Row)
    ensures |r| == |row|
    ensures forall i :: 0 <= i < |row| ==> r[i] == Entry(row[i].col, row[i].val - mu)
  {
    seq(|row|, i requires 0 <= i < |row| => Entry(row[i].col, row[i].val - mu))
  }

  /** The mean-centred matrix: each user's mean subtracted from that user's present entries only. */
  function CenterMatrix(m: seq<Row>, means: seq<real>): (c: seq<Row>)
    requires |means| == |m|
    ensures |c| == |m| && forall u :: 0 <= u < |m| ==> c[u] == CenterRow(m[u], means[u])
  {
    seq(|m|, u requires 0 <= u < |m| => CenterRow(m[u], means[u]))
  }

  lemma {:induction false} CenterRowSum(row: Row, mu: real)
    ensures RowSum(CenterRow(row, mu)) == RowSum(row) - (|row| as real) * mu
  {
    if row != [] {
      CenterRowSum(row[1..], mu);
      assert CenterRow(row, mu)[1..] == CenterRow(row[1..], mu);
    }
  }

  /**
   * Centring keeps the sparsity structure (same columns, same number of entries, an empty
   * row stays empty), moves every present value down by the user's mean, and leaves each
   * non-empty row of positive ratings summing to zero.
   */
  lemma CenteringPreservesStructure(m: seq<Row>, u: nat)
    requires u < |m|
    ensures var c := CenterMatrix(m, UserMeans(m));
      && Cols(c[u]) == Cols(m[u])
      && |c[u]| == |m[u]|
      && (m[u] == [] ==> c[u] == [])
      && (forall i :: 0 <= i < |m[u]| ==> c[u][i].col == m[u][i].col && c[u][i].val == m[u][i].val - Mean(m[u]))
      && (PositiveValues(m[u]) ==> RowSum(c[u]) == 0.0)
  {
    var c := CenterMatrix(m, UserMeans(m));
    var row := m[u];
    forall x | x in Cols(c[u]) ensures x in Cols(row)
    {
      var e: Entry :| e in c[u] && e.col == x;
      var i :| 0 <= i < |c[u]| && c[u][i] == e;
      assert row[i] in row;
    }
    forall x | x in Cols(row) ensures x in Cols(c[u])
    {
      var e: Entry :| e in row && e.col == x;
      var i :| 0 <= i < |row| && row[i] == e;
      assert c[u][i] in c[u];
    }
    CenterRowSum(row, Mean(row));
    if PositiveValues(row) && row != [] {
      MeanOfPresentRatings(row);
    }
  }

  /** Pairs column indices with their values. */
  function Zip(cols: seq<nat>, vals: seq<real>): (row: Row)
    requires |cols| == |vals|
    ensures |row| == |cols| && forall i :: 0 <= i < |cols| ==> row[i] == Entry(cols[i], vals[i])
  {
    seq(|cols|, i requires 0 <= i < |cols| => Entry(cols[i], vals[i]))
  }

  /** The matrix in list-of-lists form (`tolil()`), whose rows the centring loop rewrites in place. */
  class LilMatrix {
    /** Column indices of the stored entries of each row. */
    var rows: seq<seq<nat>>
    /** Values of the stored entries of each row, aligned with `rows`. */
    var data: seq<seq<real>>

    ghost predicate Valid()
      reads this
    {
      |rows| == |data| && forall u :: 0 <= u < |rows| ==> |rows[u]| == |data[u]|
    }

    /** Back to rows of entries (`tocsr()`). */
    function ToRows(): (m: seq<Row>)
      reads this
      requires Valid()
      ensures |m| == |rows|
    {
      var r, d := rows, data;
      seq(|r|, u requires 0 <= u < |r| && |r| == |d| && |r[u]| == |d[u]| => Zip(r[u], d[u]))
    }

    constructor FromRows(m: seq<Row>)
      ensures Valid() && ToRows() == m
    {
      rows := seq(|m|, u requires 0 <= u < |m| => seq(|m[u]|, i requires 0 <= i < |m[u]| => m[u][i].col));
      data := seq(|m|, u requires 0 <= u < |m| => seq(|m[u]|, i requires 0 <= i < |m[u]| => m[u][i].val));
      new;
      assert forall u :: 0 <= u < |m| ==> ToRows()[u] == m[u];
    }

    /**
     * The centring loop: each non-empty row of `data` is replaced by its values minus the
     * user's mean; `rows` (the sparsity structure) is never touched.
     */
    method CenterRows(means: seq<real>)
      requires Valid() && |means| == |rows|
      modifies this
      ensures Valid()
      ensures rows == old(rows)
      ensures ToRows() == CenterMatrix(old(ToRows()), means)
    {
      ghost var before := data;
      for u := 0 to |data|
        invariant rows == old(rows) && |data| == |before|
        invariant Valid()
        invariant forall w :: 0 <= w < u ==> data[w] == Shift(before[w], means[w])
        invariant forall w :: u <= w < |data| ==> data[w] == before[w]
      {
        if |data[u]| > 0 {
          data := data[u := Shift(data[u], means[u])];
        }
      }
      assert forall w :: 0 <= w < |rows| ==> ToRows()[w] == CenterRow(old(ToRows())[w], means[w]);
    }
  }

  // ---------------------------------------------------------------------------
  // The bundle
  // ---------------------------------------------------------------------------

  datatype CfBundle = CfBundle(
    mat: seq<Row>,
    matCentered: seq<Row>,
    userMeans: seq<real>,
    userIdToIdx: map<int, nat>,
    movieIdToIdx: map<int, nat>,
    idxToMovieId: map<nat, int>)

  /** What the recommender relies on: matching shapes, ids mapped into range, and inverse movie maps. */
  predicate ValidBundle(b: CfBundle)
  {
    && |b.userMeans| == |b.mat|
    && (forall id :: id in b.userIdToIdx ==> b.userIdToIdx[id] < |b.mat|)
    && (forall u, e :: 0 <= u < |b.mat| && e in b.mat[u] ==> e.col in b.idxToMovieId)
    && (forall i :: i in b.idxToMovieId ==> b.idxToMovieId[i] in b.movieIdToIdx && b.movieIdToIdx[b.idxToMovieId[i]] == i)
  }

  /**
   * `fit_cf_model`: index maps over the sorted distinct ids, the rating matrix, the guarded
   * per-user means, and the centred matrix obtained by rewriting the present entries row by row.
   */
  method FitCfModel(ratings: seq<Rating>) returns (b: CfBundle)
    ensures b.userIdToIdx == IndexMap(SortedIds(UserIds(ratings)))
    ensures b.movieIdToIdx == IndexMap(SortedIds(MovieIds(ratings)))
    ensures b.idxToMovieId == Invert(b.movieIdToIdx)
    ensures Indexes(ratings, b.userIdToIdx, b.movieIdToIdx, |SortedIds(UserIds(ratings))|)
    ensures b.mat == RatingMatrix(ratings, b.userIdToIdx, b.movieIdToIdx, |SortedIds(UserIds(ratings))|)
    ensures b.userMeans == UserMeans(b.mat)
    ensures b.matCentered == CenterMatrix(b.mat, b.userMeans)
    ensures ValidBundle(b)
  {
    var users := SortedIds(UserIds(ratings));
    var items := SortedIds(MovieIds(ratings));
    var userIdToIdx := IndexMap(users);
    var movieIdToIdx := IndexMap(items);
    IdIndexBijection(UserIds(ratings));
    IdIndexBijection(MovieIds(ratings));
    var idxToMovieId := Invert(movieIdToIdx);
    EventsIndexed(ratings);
    var mat := RatingMatrix(ratings, userIdToIdx, movieIdToIdx, |users|);
    var means := UserMeans(mat);
    var lil := new LilMatrix.FromRows(mat);
    lil.CenterRows(means);
    b := CfBundle(mat, lil.ToRows(), means, userIdToIdx, movieIdToIdx, idxToMovieId);
    FittedBundleValid(ratings, b);
  }

  lemma FittedBundleValid(ratings: seq<Rating>, b: CfBundle)
    requires b.userIdToIdx == IndexMap(SortedIds(UserIds(ratings)))
    requires b.movieIdToIdx == IndexMap(SortedIds(MovieIds(ratings)))
    requires b.idxToMovieId == Invert(b.movieIdToIdx)
    requires Indexes(ratings, b.userIdToIdx, b.movieIdToIdx, |SortedIds(UserIds(ratings))|)
    requires b.mat == RatingMatrix(ratings, b.userIdToIdx, b.movieIdToIdx, |SortedIds(UserIds(ratings))|)
    requires b.userMeans == UserMeans(b.mat)
    ensures ValidBundle(b)
  {
    var n := |SortedIds(UserIds(ratings))|;
    MatrixColumnsKnown(ratings, b.userIdToIdx, b.movieIdToIdx, n);
    forall u, e: Entry | 0 <= u < |b.mat| && e in b.mat[u] ensures e.col in b.idxToMovieId
    {
      var x :| x in b.movieIdToIdx && b.movieIdToIdx[x] == e.col;
    }
  }

  /** Every stored column is the index of some movie id that occurs in the events. */
  lemma MatrixColumnsKnown(ratings: seq<Rating>, um: map<int, nat>, mm: map<int, nat>, nUsers: nat)
    requires Indexes(ratings, um, mm, nUsers)
    ensures var m := RatingMatrix(ratings, um, mm, nUsers);
      forall u, e :: 0 <= u < |m| && e in m[u] ==> e.col in mm.Values
  {
    var m := RatingMatrix(ratings, um, mm, nUsers);
    RatingMatrixColumns(ratings, um, mm, nUsers);
    forall u, e: Entry | 0 <= u < |m| && e in m[u] ensures e.col in mm.Values
    {
      assert e.col in Cols(m[u]);
      var r :| r in ratings && r.userId in um && r.movieId in mm && um[r.userId] == u && e.col == mm[r.movieId];
    }
  }

  /**
   * For events with at most one rating per (user, movie) pair, the fitted matrix row of each
   * user holds exactly that user's ratings, each at the index of its movie.
   */
  lemma FittedMatrixCells(ratings: seq<Rating>)
    requires NoDuplicatePairs(ratings)
    ensures var um := IndexMap(SortedIds(UserIds(ratings)));
      var mm := IndexMap(SortedIds(MovieIds(ratings)));
      var n := |SortedIds(UserIds(ratings))|;
      Indexes(ratings, um, mm, n) &&
      forall u :: 0 <= u < n ==> Elems(RatingMatrix(ratings, um, mm, n)[u]) == EventsOfRow(ratings, um, mm, u)
  {
    var um := IndexMap(SortedIds(UserIds(ratings)));
    var mm := IndexMap(SortedIds(MovieIds(ratings)));
    var n := |SortedIds(UserIds(ratings))|;
    IdIndexBijection(UserIds(ratings));
    IdIndexBijection(MovieIds(ratings));
    EventsIndexed(ratings);
    RatingMatrixCells(ratings, um, mm, n);
  }

  /** Every event's ids are among the fitted keys, and its user index is in range. */
  lemma EventsIndexed(ratings: seq<Rating>)
    ensures Indexes(ratings, IndexMap(SortedIds(UserIds(ratings))), IndexMap(SortedIds(MovieIds(ratings))), |SortedIds(UserIds(ratings))|)
  {
    var users, movies := SortedIds(UserIds(ratings)), SortedIds(MovieIds(ratings));
    forall r | r in ratings
      ensures r.userId in IndexMap(users) && IndexMap(users)[r.userId] < |users| && r.movieId in IndexMap(movies)
    {
      var i :| 0 <= i < |ratings| && ratings[i] == r;
      assert UserIds(ratings)[i] == r.userId && MovieIds(ratings)[i] == r.movieId;
      assert r.userId in Elems(users) && r.movieId in Elems(movies);
      var a :| 0 <= a < |users| && users[a] == r.userId;
      var c :| 0 <= c < |movies| && movies[c] == r.movieId;
    }
  }
}
