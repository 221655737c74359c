/**
 * The neighbourhood prediction of `recommend_for_user`: the top-k most similar users, the
 * candidate items they rated and the target did not, and the mean-plus-weighted-deviation
 * prediction for each candidate that at least one neighbour rated.
 */
module CfPredict {

  import opened Catalog
  import opened Ranking
  import opened CfModel

  /** `denom_eps`, added to the sum of absolute similarities. */
  const Eps: real := 0.00000001

  function Abs(x: real): (r: real)
    ensures r >= 0.0 && (r == x || r == -x)
  {
    if x < 0.0 then -x else x
  }

  /** `mat[v, c]`: the value stored at column `c` of a row, or 0 when nothing is stored there. */
  function RatingAt(row: Row, c: nat): (v: real)
    ensures c !in Cols(row) ==> v == 0.0
    ensures c in Cols(row) ==> Entry(c, v) in row
  {
    if row == [] then 0.0
    else
      assert row == [row[0]] + row[1..];
      assert Cols(row) == {row[0].col} + Cols(row[1..]);
      if row[0].col == c then row[0].val
      else RatingAt(row[1..], c)
  }

  /** Every index in `ns` addresses one of `n` users. */
  predicate InRange(ns: seq<nat>, n: nat)
  {
    forall j :: 0 <= j < |ns| ==> ns[j] < n
  }

  /** The shapes one prediction reads: a mean and a similarity per user, neighbours in range. */
  predicate Fits(mat: seq<Row>, means: seq<real>, sims: seq<real>, ns: seq<nat>)
  {
    |means| == |mat| && |sims| == |mat| && InRange(ns, |mat|)
  }

  // ---------------------------------------------------------------------------
  // The neighbours
  // ---------------------------------------------------------------------------

  /**
   * `np.argsort(-sims_all)[:k]`: at most `k` distinct users, most similar first, and no user
   * left out is more similar than any user taken.
   */
  function Neighbors(sims: seq<real>, k: nat): (ns: seq<nat>)
    ensures |ns| == Min(k, |sims|)
    ensures Distinct(ns) && InRange(ns, |sims|)
    ensures DescendingBy(ns, sims)
    ensures forall v, j :: 0 <= v < |sims| && v !in ns && 0 <= j < |ns| ==> sims[v] <= sims[ns[j]]
  {
    var order := Argsort(sims);
    TakeKeepsBest(order, sims, k);
    var ns := Take(order, k);
    assert forall j :: 0 <= j < |ns| ==> ns[j] == order[j];
    assert forall j :: 0 <= j < |ns| ==> ns[j] in ns;
    ns
  }

  /**
   * The target's own similarity is set to 0 before the neighbours are chosen, so the target is
   * chosen only when no user outside the neighbourhood has a positive similarity.
   */
  lemma SelfChosenOnlyWithoutPositiveRivals(sims: seq<real>, u: nat, k: nat)
    requires u < |sims|
    requires u in Neighbors(sims[u := 0.0], k)
    ensures forall v :: 0 <= v < |sims| && v !in Neighbors(sims[u := 0.0], k) ==> sims[v] <= 0.0
  {
    var s := sims[u := 0.0];
    var ns := Neighbors(s, k);
    var j :| 0 <= j < |ns| && ns[j] == u;
    forall v | 0 <= v < |sims| && v !in ns ensures sims[v] <= 0.0
    {
      assert v != u;
      assert s[v] <= s[ns[j]];
    }
  }

  // ---------------------------------------------------------------------------
  // Candidate items
  // ---------------------------------------------------------------------------

  /** The union of the neighbours' rated items (`cand_items.update(...)` over the neighbours). */
  function NeighborItems(mat: seq<Row>, ns: seq<nat>): (items: set<nat>)
    requires InRange(ns, |mat|)
    ensures forall c :: c in items <==> exists j :: 0 <= j < |ns| && c in Cols(mat[ns[j]])
  {
    if ns == [] then {}
    else
      var n := |ns| - 1;
      var rest := NeighborItems(mat, ns[..n]);
      assert forall j :: 0 <= j < n ==> ns[..n][j] == ns[j];
      rest + Cols(mat[ns[n]])
  }

  /** The loop over the neighbours that accumulates their rated items into one set. */
  method CollectCandidates(mat: seq<Row>, ns: seq<nat>) returns (cand: set<nat>)
    requires InRange(ns, |mat|)
    ensures cand == NeighborItems(mat, ns)
  {
    cand := {};
    for j := 0 to |ns|
      invariant cand == NeighborItems(mat, ns[..j])
    {
      assert ns[..j + 1][..j] == ns[..j];
      cand := cand + Cols(mat[ns[j]]);
    }
    assert ns[..|ns|] == ns;
  }

  /** `cand_items - rated_items`: items some neighbour rated and the target did not. */
  function Candidates(mat: seq<Row>, u: nat, ns: seq<nat>): (cands: set<nat>)
    requires u < |mat| && InRange(ns, |mat|)
    ensures forall c :: c in cands <==> c !in Cols(mat[u]) && exists j :: 0 <= j < |ns| && c in Cols(mat[ns[j]])
  {
    NeighborItems(mat, ns) - Cols(mat[u])
  }

  // ---------------------------------------------------------------------------
  // One prediction
  // ---------------------------------------------------------------------------

  /** `np.any(col > 0)`: some neighbour has a positive rating for `c`. */
  predicate HasRater(mat: seq<Row>, ns: seq<nat>, c: nat)
    requires InRange(ns, |mat|)
  {
    exists j :: 0 <= j < |ns| && RatingAt(mat[ns[j]], c) > 0.0
  }

  /** Neighbour `v`'s term `sim * (r_vi - mu_v)`, or 0 when the mask drops `v` for item `c`. */
  function Share(mat: seq<Row>, means: seq<real>, sims: seq<real>, v: nat, c: nat): real
    requires |means| == |mat| && |sims| == |mat| && v < |mat|
  {
    var r := RatingAt(mat[v], c);
    if r > 0.0 then sims[v] * (r - means[v]) else 0.0
  }

  /** Neighbour `v`'s weight `|sim|`, or 0 when the mask drops `v` for item `c`. */
  function Weight(mat: seq<Row>, sims: seq<real>, v: nat, c: nat): (w: real)
    requires |sims| == |mat| && v < |mat|
    ensures w >= 0.0
  {
    if RatingAt(mat[v], c) > 0.0 then Abs(sims[v]) else 0.0
  }

  /** `np.sum(sims * (r_vi - mu_v))` over the neighbours with a positive rating for `c`. */
  function Numerator(mat: seq<Row>, means: seq<real>, sims: seq<real>, ns: seq<nat>, c: nat): real
    requires Fits(mat, means, sims, ns)
  {
    if ns == [] then 0.0
    else Share(mat, means, sims, ns[0], c) + Numerator(mat, means, sims, ns[1..], c)
  }

  /** `np.sum(np.abs(sims))` over the neighbours with a positive rating for `c`. */
  function AbsSum(mat: seq<Row>, sims: seq<real>, ns: seq<nat>, c: nat): (s: real)
    requires |sims| == |mat| && InRange(ns, |mat|)
    ensures s >= 0.0
    ensures !HasRater(mat, ns, c) ==> s == 0.0
  {
    if ns == [] then 0.0
    else
      assert forall j :: 0 <= j < |ns| - 1 ==> ns[1..][j] == ns[j + 1];
      Weight(mat, sims, ns[0], c) + AbsSum(mat, sims, ns[1..], c)
  }

  /** `user_means[u] + num / den`, with `den` the absolute similarity sum plus `Eps`. */
  function Predict(mat: seq<Row>, means: seq<real>, sims: seq<real>, ns: seq<nat>, u: nat, c: nat): real
    requires Fits(mat, means, sims, ns) && u < |mat|
  {
    means[u] + Numerator(mat, means, sims, ns, c) / (AbsSum(mat, sims, ns, c) + Eps)
  }

  /** A neighbour passes the `col > 0` mask only for a column its sparse row actually stores. */
  lemma RaterStoresColumn(mat: seq<Row>, ns: seq<nat>, c: nat)
    requires InRange(ns, |mat|)
    requires HasRater(mat, ns, c)
    ensures exists j :: 0 <= j < |ns| && c in Cols(mat[ns[j]])
  {
    var j :| 0 <= j < |ns| && RatingAt(mat[ns[j]], c) > 0.0;
    assert c in Cols(mat[ns[j]]);
  }

  /** Neighbours with similarity 0 carry no weight: the prediction is then the target's own mean. */
  lemma {:induction false} ZeroSimilarityPredictsMean(mat: seq<Row>, means: seq<real>, sims: seq<real>, ns: seq<nat>, u: nat, c: nat)
    requires Fits(mat, means, sims, ns) && u < |mat|
    requires forall j :: 0 <= j < |ns| ==> sims[ns[j]] == 0.0
    ensures Numerator(mat, means, sims, ns, c) == 0.0
    ensures Predict(mat, means, sims, ns, u, c) == means[u]
  {
    if ns != [] {
      assert forall j :: 0 <= j < |ns| - 1 ==> ns[1..][j] == ns[j + 1];
      ZeroSimilarityPredictsMean(mat, means, sims, ns[1..], u, c);
    }
  }

  /** Without a neighbour who rated `c` there is nothing to weigh: numerator and weights are both 0. */
  lemma {:induction false} NoRaterNoWeight(mat: seq<Row>, means: seq<real>, sims: seq<real>, ns: seq<nat>, c: nat)
    requires Fits(mat, means, sims, ns)
    requires !HasRater(mat, ns, c)
    ensures Numerator(mat, means, sims, ns, c) == 0.0 && AbsSum(mat, sims, ns, c) == 0.0
  {
    if ns != [] {
      assert RatingAt(mat[ns[0]], c) <= 0.0;
      assert forall j :: 0 <= j < |ns| - 1 ==> ns[1..][j] == ns[j + 1];
      NoRaterNoWeight(mat, means, sims, ns[1..], c);
    }
  }

  /** The numerator is bounded by the weights times the largest deviation of a neighbour's rating. */
  lemma NumeratorBound(mat: seq<Row>, means: seq<real>, sims: seq<real>, ns: seq<nat>, c: nat, d: real)
    requires Fits(mat, means, sims, ns)
    requires forall j :: 0 <= j < |ns| && RatingAt(mat[ns[j]], c) > 0.0 ==> Abs(RatingAt(mat[ns[j]], c) - means[ns[j]]) <= d
    ensures Abs(Numerator(mat, means, sims, ns, c)) <= d * AbsSum(mat, sims, ns, c)
  {
    NumeratorWithinScaled(mat, means, sims, ns, c, d);
    ScaledWeightsTotal(mat, sims, ns, c, d);
  }

  lemma NumeratorWithinScaled(mat: seq<Row>, means: seq<real>, sims: seq<real>, ns: seq<nat>, c: nat, d: real)
    requires Fits(mat, means, sims, ns)
    requires forall j :: 0 <= j < |ns| && RatingAt(mat[ns[j]], c) > 0.0 ==> Abs(RatingAt(mat[ns[j]], c) - means[ns[j]]) <= d
    ensures Abs(Numerator(mat, means, sims, ns, c)) <= Sum(Scaled(Weights(mat, sims, ns, c), d))
  {
    NumeratorIsSum(mat, means, sims, ns, c);
    SharesWithinScaledWeights(mat, means, sims, ns, c, d);
  }

  lemma ScaledWeightsTotal(mat: seq<Row>, sims: seq<real>, ns: seq<nat>, c: nat, d: real)
    requires |sims| == |mat| && InRange(ns, |mat|)
    ensures Sum(Scaled(Weights(mat, sims, ns, c), d)) == d * AbsSum(mat, sims, ns, c)
  {
    var ws := Weights(mat, sims, ns, c);
    AbsSumIsSum(mat, sims, ns, c);
    SumScaled(ws, d);
    ScaleEqual(d, AbsSum(mat, sims, ns, c), Sum(ws));
  }

  lemma ScaleEqual(d: real, x: real, y: real)
    requires x == y
    ensures d * x == d * y
  {
  }

  function Sum(xs: seq<real>): real
  {
    if |xs| == 0 then 0.0 else xs[0] + Sum(xs[1..])
  }

  function Scaled(ws: seq<real>, d: real): (ys: seq<real>)
    ensures |ys| == |ws| && forall i :: 0 <= i < |ws| ==> ys[i] == d * ws[i]
  {
    seq(|ws|, i requires 0 <= i < |ws| => d * ws[i])
  }

  /** Each neighbour's term of the numerator, in neighbour order. */
  function Shares(mat: seq<Row>, means: seq<real>, sims: seq<real>, ns: seq<nat>, c: nat): (xs: seq<real>)
    requires Fits(mat, means, sims, ns)
    ensures |xs| == |ns| && forall j :: 0 <= j < |ns| ==> xs[j] == Share(mat, means, sims, ns[j], c)
  {
    seq(|ns|, j requires 0 <= j < |ns| => Share(mat, means, sims, ns[j], c))
  }

  /** Each neighbour's weight, in neighbour order. */
  function Weights(mat: seq<Row>, sims: seq<real>, ns: seq<nat>, c: nat): (ws: seq<real>)
    requires |sims| == |mat| && InRange(ns, |mat|)
    ensures |ws| == |ns| && forall j :: 0 <= j < |ns| ==> ws[j] == Weight(mat, sims, ns[j], c)
  {
    seq(|ns|, j requires 0 <= j < |ns| => Weight(mat, sims, ns[j], c))
  }

  lemma {:induction false} NumeratorIsSum(mat: seq<Row>, means: seq<real>, sims: seq<real>, ns: seq<nat>, c: nat)
    requires Fits(mat, means, sims, ns)
    ensures Numerator(mat, means, sims, ns, c) == Sum(Shares(mat, means, sims, ns, c))
  {
    if |ns| > 0 {
      var t := ns[1..];
      assert forall j :: 0 <= j < |t| ==> t[j] == ns[j + 1];
      NumeratorIsSum(mat, means, sims, t, c);
      assert Shares(mat, means, sims, ns, c)[1..] == Shares(mat, means, sims, t, c);
    }
  }

  lemma {:induction false} AbsSumIsSum(mat: seq<Row>, sims: seq<real>, ns: seq<nat>, c: nat)
    requires |sims| == |mat| && InRange(ns, |mat|)
    ensures AbsSum(mat, sims, ns, c) == Sum(Weights(mat, sims, ns, c))
  {
    if |ns| > 0 {
      var t := ns[1..];
      assert forall j :: 0 <= j < |t| ==> t[j] == ns[j + 1];
      AbsSumIsSum(mat, sims, t, c);
      assert Weights(mat, sims, ns, c)[1..] == Weights(mat, sims, t, c);
    }
  }

  lemma SharesWithinScaledWeights(mat: seq<Row>, means: seq<real>, sims: seq<real>, ns: seq<nat>, c: nat, d: real)
    requires Fits(mat, means, sims, ns)
    requires forall j :: 0 <= j < |ns| && RatingAt(mat[ns[j]], c) > 0.0 ==> Abs(RatingAt(mat[ns[j]], c) - means[ns[j]]) <= d
    ensures Abs(Sum(Shares(mat, means, sims, ns, c))) <= Sum(Scaled(Weights(mat, sims, ns, c), d))
  {
    var xs, ys := Shares(mat, means, sims, ns, c), Scaled(Weights(mat, sims, ns, c), d);
    forall j | 0 <= j < |ns| ensures Abs(xs[j]) <= ys[j]
    {
      ShareBound(mat, means, sims, ns[j], c, d);
    }
    SumBound(xs, ys);
  }

  /** The triangle inequality for sums: termwise bounds add up. */
  lemma {:induction false} SumBound(xs: seq<real>, ys: seq<real>)
    requires |xs| == |ys|
    requires forall i :: 0 <= i < |xs| ==> Abs(xs[i]) <= ys[i]
    ensures Abs(Sum(xs)) <= Sum(ys)
  {
    if |xs| > 0 {
      assert forall i :: 0 <= i < |xs| - 1 ==> xs[1..][i] == xs[i + 1] && ys[1..][i] == ys[i + 1];
      SumBound(xs[1..], ys[1..]);
    }
  }

  /** Scaling every weight scales the total. */
  lemma {:induction false} SumScaled(ws: seq<real>, d: real)
    ensures Sum(Scaled(ws, d)) == d * Sum(ws)
  {
    if |ws| > 0 {
      assert Scaled(ws, d)[1..] == Scaled(ws[1..], d) by {
        forall i | 0 <= i < |ws| - 1 ensures Scaled(ws, d)[1..][i] == Scaled(ws[1..], d)[i]
        {
          assert ws[1..][i] == ws[i + 1];
        }
      }
      SumScaled(ws[1..], d);
      Distribute(d, ws[0], Sum(ws[1..]), Sum(ws));
    }
  }

  lemma Distribute(d: real, w: real, a: real, total: real)
    requires total == w + a
    ensures d * w + d * a == d * total
  {
  }

  lemma ShareBound(mat: seq<Row>, means: seq<real>, sims: seq<real>, v: nat, c: nat, d: real)
    requires |means| == |mat| && |sims| == |mat| && v < |mat|
    requires RatingAt(mat[v], c) > 0.0 ==> Abs(RatingAt(mat[v], c) - means[v]) <= d
    ensures Abs(Share(mat, means, sims, v, c)) <= d * Weight(mat, sims, v, c)
  {
    var r := RatingAt(mat[v], c);
    if r > 0.0 {
      WeightedTermBound(sims[v], r - means[v], d);
    }
  }

  lemma WeightedTermBound(s: real, dev: real, d: real)
    requires Abs(dev) <= d
    ensures Abs(s * dev) <= d * Abs(s)
  {
    assert Abs(s * dev) == Abs(s) * Abs(dev);
    assert Abs(s) * Abs(dev) <= Abs(s) * d;
  }

  lemma QuotientBound(n: real, a: real, d: real)
    requires a >= 0.0 && d >= 0.0 && Abs(n) <= d * a
    ensures Abs(n / (a + Eps)) <= d
  {
    var den := a + Eps;
    var q := n / den;
    assert q * den == n;
    assert Abs(q) * den == Abs(n);
    assert d * a <= d * den;
    assert Abs(q) * den <= d * den;
  }

  /**
   * The prediction stays within `d` of the target's mean whenever every contributing neighbour's
   * rating lies within `d` of that neighbour's own mean: the deviation term is a weighted
   * average of deviations, shrunk slightly by `Eps`.
   */
  lemma PredictionBounded(mat: seq<Row>, means: seq<real>, sims: seq<real>, ns: seq<nat>, u: nat, c: nat, d: real)
    requires Fits(mat, means, sims, ns) && u < |mat| && d >= 0.0
    requires forall j :: 0 <= j < |ns| && RatingAt(mat[ns[j]], c) > 0.0 ==> Abs(RatingAt(mat[ns[j]], c) - means[ns[j]]) <= d
    ensures Abs(Predict(mat, means, sims, ns, u, c) - means[u]) <= d
  {
    NumeratorBound(mat, means, sims, ns, c, d);
    ShiftBound(Predict(mat, means, sims, ns, u, c), means[u], Numerator(mat, means, sims, ns, c), AbsSum(mat, sims, ns, c), d);
  }

  /** A mean shifted by a bounded weighted average stays within the bound of the mean. */
  lemma ShiftBound(p: real, m: real, n: real, a: real, d: real)
    requires a >= 0.0 && d >= 0.0 && Abs(n) <= d * a
    requires p == m + n / (a + Eps)
    ensures Abs(p - m) <= d
  {
    QuotientBound(n, a, d);
  }

  /**
   * The target never rated a candidate, so it adds nothing to any candidate's prediction: with
   * or without the target among the neighbours, numerator, weights and raters are the same.
   */
  lemma SelfContributesNothing(mat: seq<Row>, means: seq<real>, sims: seq<real>, ns: seq<nat>, u: nat, c: nat)
    requires Fits(mat, means, sims, ns) && u < |mat|
    requires c !in Cols(mat[u])
    ensures Fits(mat, means, sims, DropValue(ns, u))
    ensures Numerator(mat, means, sims, DropValue(ns, u), c) == Numerator(mat, means, sims, ns, c)
    ensures AbsSum(mat, sims, DropValue(ns, u), c) == AbsSum(mat, sims, ns, c)
    ensures HasRater(mat, DropValue(ns, u), c) <==> HasRater(mat, ns, c)
  {
    DropInRange(ns, u, |mat|);
    DropSelfSums(mat, means, sims, ns, u, c);
    var d := DropValue(ns, u);
    if HasRater(mat, ns, c) {
      var j :| 0 <= j < |ns| && RatingAt(mat[ns[j]], c) > 0.0;
      assert ns[j] in d;
      var i :| 0 <= i < |d| && d[i] == ns[j];
    }
    if HasRater(mat, d, c) {
      var i :| 0 <= i < |d| && RatingAt(mat[d[i]], c) > 0.0;
      assert d[i] in ns;
      var j :| 0 <= j < |ns| && ns[j] == d[i];
    }
  }

  lemma {:induction false} DropSelfSums(mat: seq<Row>, means: seq<real>, sims: seq<real>, ns: seq<nat>, u: nat, c: nat)
    requires Fits(mat, means, sims, ns) && u < |mat|
    requires c !in Cols(mat[u])
    requires InRange(DropValue(ns, u), |mat|)
    ensures Numerator(mat, means, sims, DropValue(ns, u), c) == Numerator(mat, means, sims, ns, c)
    ensures AbsSum(mat, sims, DropValue(ns, u), c) == AbsSum(mat, sims, ns, c)
  {
    if ns != [] {
      var t := ns[1..];
      assert forall j :: 0 <= j < |t| ==> t[j] == ns[j + 1];
      DropInRange(t, u, |mat|);
      DropSelfSums(mat, means, sims, t, u, c);
      if ns[0] != u {
        var d := DropValue(ns, u);
        assert d == [ns[0]] + DropValue(t, u);
        assert d[1..] == DropValue(t, u);
      }
    }
  }

  lemma DropInRange(ns: seq<nat>, x: nat, n: nat)
    requires InRange(ns, n)
    ensures InRange(DropValue(ns, x), n)
  {
    var d := DropValue(ns, x);
    forall j | 0 <= j < |d| ensures d[j] < n
    {
      assert d[j] in d;
      var i :| 0 <= i < |ns| && ns[i] == d[j];
    }
  }

  lemma RaterSplit(mat: seq<Row>, ns: seq<nat>, c: nat)
    requires InRange(ns, |mat|) && ns != []
    ensures InRange(ns[1..], |mat|)
    ensures HasRater(mat, ns, c) <==> RatingAt(mat[ns[0]], c) > 0.0 || HasRater(mat, ns[1..], c)
  {
    var t := ns[1..];
    assert forall j :: 0 <= j < |t| ==> t[j] == ns[j + 1];
    if HasRater(mat, ns, c) && RatingAt(mat[ns[0]], c) <= 0.0 {
      var j :| 0 <= j < |ns| && RatingAt(mat[ns[j]], c) > 0.0;
      assert RatingAt(mat[t[j - 1]], c) > 0.0;
    }
    if HasRater(mat, t, c) {
      var j :| 0 <= j < |t| && RatingAt(mat[t[j]], c) > 0.0;
      assert RatingAt(mat[ns[j + 1]], c) > 0.0;
    }
  }

  // ---------------------------------------------------------------------------
  // The prediction loop
  // ---------------------------------------------------------------------------

  /** The candidates that get a prediction: those some neighbour rated positively. */
  function Predictable(mat: seq<Row>, ns: seq<nat>, cands: set<nat>): (p: set<nat>)
    requires InRange(ns, |mat|)
    ensures p <= cands
    ensures forall c :: c in p <==> c in cands && HasRater(mat, ns, c)
  {
    set c | c in cands && HasRater(mat, ns, c)
  }

  /** Every stored rating of the neighbours is positive (MovieLens ratings are 0.5 to 5). */
  predicate PositiveRows(mat: seq<Row>, ns: seq<nat>)
    requires InRange(ns, |mat|)
  {
    forall j :: 0 <= j < |ns| ==> PositiveValues(mat[ns[j]])
  }

  /** With positive stored ratings no candidate is skipped: each was rated by the neighbour it came from. */
  lemma EveryCandidatePredictable(mat: seq<Row>, u: nat, ns: seq<nat>)
    requires u < |mat| && InRange(ns, |mat|)
    requires PositiveRows(mat, ns)
    ensures Predictable(mat, ns, Candidates(mat, u, ns)) == Candidates(mat, u, ns)
  {
    var cands := Candidates(mat, u, ns);
    forall c | c in cands ensures HasRater(mat, ns, c)
    {
      var j :| 0 <= j < |ns| && c in Cols(mat[ns[j]]);
      assert Entry(c, RatingAt(mat[ns[j]], c)) in mat[ns[j]];
    }
  }

  /** Each item is keyed by its prediction (`preds.append((i, r_hat))`). */
  predicate Scored(mat: seq<Row>, means: seq<real>, sims: seq<real>, ns: seq<nat>, u: nat, preds: seq<Ranked<nat>>)
    requires Fits(mat, means, sims, ns) && u < |mat|
  {
    forall k :: 0 <= k < |preds| ==> preds[k].key == Key(Predict(mat, means, sims, ns, u, preds[k].item), 0.0)
  }

  lemma AppendScored(mat: seq<Row>, means: seq<real>, sims: seq<real>, ns: seq<nat>, u: nat, preds: seq<Ranked<nat>>, c: nat)
    requires Fits(mat, means, sims, ns) && u < |mat|
    requires Scored(mat, means, sims, ns, u, preds)
    ensures Scored(mat, means, sims, ns, u, preds + [Ranked(c, Key(Predict(mat, means, sims, ns, u, c), 0.0))])
  {
  }

  /**
   * `for i in cand_items`: visits the candidates in an unspecified order (the iteration order
   * of a Python set), skips those no neighbour rated, and appends `(i, r_hat)` for the rest.
   */
  method PredictAll(mat: seq<Row>, means: seq<real>, sims: seq<real>, ns: seq<nat>, u: nat, cands: set<nat>)
    returns (preds: seq<Ranked<nat>>)
    requires Fits(mat, means, sims, ns) && u < |mat|
    ensures Distinct(Items(preds))
    ensures Elems(Items(preds)) == Predictable(mat, ns, cands)
    ensures Scored(mat, means, sims, ns, u, preds)
  {
    preds := [];
    var remaining := cands;
    while remaining != {}
      invariant remaining <= cands
      invariant Distinct(Items(preds))
      invariant Elems(Items(preds)) == Predictable(mat, ns, cands - remaining)
      invariant Scored(mat, means, sims, ns, u, preds)
      decreases |remaining|
    {
      var c :| c in remaining;
      ghost var before := cands - remaining;
      remaining := remaining - {c};
      assert cands - remaining == before + {c};
      PredictableAdd(mat, ns, before, c);
      if HasRater(mat, ns, c) {
        var rHat := Predict(mat, means, sims, ns, u, c);
        AppendItem(preds, Ranked(c, Key(rHat, 0.0)));
        AppendScored(mat, means, sims, ns, u, preds, c);
        preds := preds + [Ranked(c, Key(rHat, 0.0))];
      }
    }
  }

  lemma PredictableAdd(mat: seq<Row>, ns: seq<nat>, done: set<nat>, c: nat)
    requires InRange(ns, |mat|)
    ensures Predictable(mat, ns, done + {c}) == Predictable(mat, ns, done) + (if HasRater(mat, ns, c) then {c} else {})
  {
  }

  lemma AppendItem<T>(s: seq<Ranked<T>>, x: Ranked<T>)
    requires Distinct(Items(s)) && x.item !in Elems(Items(s))
    ensures Distinct(Items(s + [x]))
    ensures Elems(Items(s + [x])) == Elems(Items(s)) + {x.item}
  {
    assert Items(s + [x]) == Items(s) + [x.item];
  }
}
