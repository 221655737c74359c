/**
 * Ranking by descending score, shared by both engines: the stable descending sort behind
 * `list.sort(reverse=True)` and `sort_values(ascending=False)`, and the index sort behind
 * `np.argsort(-scores)`.
 */
module Ranking {

  import opened Catalog

  /** A sort key compared lexicographically: `primary` first, then `secondary`. */
  datatype Key = Key(primary: real, secondary: real)

  predicate KeyLe(a: Key, b: Key)
  {
    a.primary < b.primary || (a.primary == b.primary && a.secondary <= b.secondary)
  }

  /** An item together with the key it is ranked by. */
  datatype Ranked<T> = Ranked(item: T, key: Key)

  /** Non-increasing by key. */
  predicate Descending<T>(s: seq<Ranked<T>>)
  {
    forall i, j :: 0 <= i < j < |s| ==> KeyLe(s[j].key, s[i].key)
  }

  predicate Distinct<T(==)>(s: seq<T>)
  {
    forall i, j :: 0 <= i < |s| && 0 <= j < |s| && i != j ==> s[i] != s[j]
  }

  /** A duplicate-free sequence has as many distinct elements as positions. */
  lemma {:induction false} DistinctElemsCard<T>(s: seq<T>)
    requires Distinct(s)
    ensures |Elems(s)| == |s|
  {
    if s != [] {
      var t := s[1..];
      DistinctSplit(s);
      DistinctElemsCard(t);
      ElemsSplit(s);
    }
  }

  lemma DistinctSplit<T>(s: seq<T>)
    requires Distinct(s) && s != []
    ensures Distinct(s[1..]) && s[0] !in Elems(s[1..])
  {
    var t := s[1..];
    forall i, j | 0 <= i < |t| && 0 <= j < |t| && i != j ensures t[i] != t[j]
    {
      assert t[i] == s[i + 1] && t[j] == s[j + 1];
    }
    forall k | 0 <= k < |t| ensures t[k] != s[0] { assert t[k] == s[k + 1]; }
  }

  lemma ElemsSplit<T>(s: seq<T>)
    requires s != []
    ensures Elems(s) == {s[0]} + Elems(s[1..])
  {
    assert s == [s[0]] + s[1..];
  }

  /** Puts `x` in front of the first element whose key is not above its own. */
  function Insert<T(==)>(x: Ranked<T>, s: seq<Ranked<T>>): (r: seq<Ranked<T>>)
    ensures multiset(r) == multiset(s) + multiset{x}
  {
    if s == [] || KeyLe(s[0].key, x.key) then [x] + s
    else
      assert s == [s[0]] + s[1..];
      [s[0]] + Insert(x, s[1..])
  }

  lemma {:induction false} InsertDescending<T>(x: Ranked<T>, s: seq<Ranked<T>>)
    requires Descending(s)
    ensures Descending(Insert(x, s))
  {
    if s != [] && !KeyLe(s[0].key, x.key) {
      var t := s[1..];
      assert Descending(t) by {
        forall i, j | 0 <= i < j < |t| ensures KeyLe(t[j].key, t[i].key)
        {
          assert t[i] == s[i + 1] && t[j] == s[j + 1];
        }
      }
      InsertDescending(x, t);
      var rest := Insert(x, t);
      forall k | 0 <= k < |rest| ensures KeyLe(rest[k].key, s[0].key)
      {
        assert rest[k] in multiset(rest);
        if rest[k] != x {
          assert rest[k] in multiset(t);
          var m :| 0 <= m < |t| && t[m] == rest[k];
          assert t[m] == s[m + 1];
        }
      }
    }
  }

  /** Stable sort into non-increasing key order: among equal keys the earlier item stays first. */
  function SortDesc<T(==)>(s: seq<Ranked<T>>): (r: seq<Ranked<T>>)
    ensures multiset(r) == multiset(s)
    ensures |r| == |s|
    ensures Descending(r)
  {
    if s == [] then []
    else
      assert s == [s[0]] + s[1..];
      var tail := SortDesc(s[1..]);
      InsertDescending(s[0], tail);
      var r := Insert(s[0], tail);
      assert |r| == |multiset(r)|;
      r
  }

  /** Items of a ranked sequence, in order. */
  function Items<T>(s: seq<Ranked<T>>): (r: seq<T>)
    ensures |r| == |s| && forall i :: 0 <= i < |s| ==> r[i] == s[i].item
  {
    seq(|s|, i requires 0 <= i < |s| => s[i].item)
  }

  /** Every position of `scores`, keyed by the score at that position. */
  function Indexed(scores: seq<real>): (r: seq<Ranked<nat>>)
    ensures |r| == |scores|
    ensures forall i :: 0 <= i < |r| ==> r[i] == Ranked(i, Key(scores[i], 0.0))
  {
    seq(|scores|, i requires 0 <= i < |scores| => Ranked(i, Key(scores[i], 0.0)))
  }

  /** Indices in non-increasing order of their scores. */
  predicate DescendingBy(idx: seq<nat>, scores: seq<real>)
  {
    && (forall i :: 0 <= i < |idx| ==> idx[i] < |scores|)
    && (forall i, j :: 0 <= i < j < |idx| ==> scores[idx[j]] <= scores[idx[i]])
  }

  /** `np.argsort(-scores)`: the positions 0..|scores|-1, each once, highest score first. */
  function Argsort(scores: seq<real>): (r: seq<nat>)
    ensures |r| == |scores|
    ensures Distinct(r)
    ensures forall i :: 0 <= i < |scores| ==> i in r
    ensures DescendingBy(r, scores)
  {
    var sorted := SortDesc(Indexed(scores));
    ArgsortFacts(scores, sorted);
    Items(sorted)
  }

  lemma ArgsortFacts(scores: seq<real>, sorted: seq<Ranked<nat>>)
    requires multiset(sorted) == multiset(Indexed(scores)) && Descending(sorted)
    ensures |sorted| == |scores|
    ensures Distinct(Items(sorted))
    ensures forall i :: 0 <= i < |scores| ==> i in Items(sorted)
    ensures DescendingBy(Items(sorted), scores)
  {
    var ix := Indexed(scores);
    assert |sorted| == |multiset(sorted)| == |multiset(ix)| == |scores|;
    IndexedDistinct(scores);
    DistinctFromMultiset(sorted, ix);
    forall i | 0 <= i < |sorted|
      ensures sorted[i].item < |scores| && sorted[i] == Ranked(sorted[i].item, Key(scores[sorted[i].item], 0.0))
    {
      assert sorted[i] in multiset(ix);
    }
    forall i | 0 <= i < |scores| ensures i in Items(sorted)
    {
      assert ix[i] in multiset(sorted);
      var j :| 0 <= j < |sorted| && sorted[j] == ix[i];
      assert Items(sorted)[j] == i;
    }
    var items := Items(sorted);
    forall a, b | 0 <= a < |items| && 0 <= b < |items| && a != b ensures items[a] != items[b]
    {
      assert sorted[a] != sorted[b];
    }
  }

  lemma IndexedDistinct(scores: seq<real>)
    ensures Distinct(Indexed(scores))
  {
  }

  /** A sequence with the same elements and multiplicities as a duplicate-free one is duplicate-free. */
  lemma DistinctFromMultiset<T>(a: seq<T>, b: seq<T>)
    requires multiset(a) == multiset(b)
    requires Distinct(b)
    ensures Distinct(a)
  {
    forall i, j | 0 <= i < |a| && 0 <= j < |a| && i != j ensures a[i] != a[j]
    {
      if a[i] == a[j] {
        var lo, hi := if i < j then i else j, if i < j then j else i;
        assert a == a[..hi] + a[hi..];
        assert a[lo] in multiset(a[..hi]) && a[hi] in multiset(a[hi..]);
        assert multiset(a)[a[i]] == multiset(a[..hi])[a[i]] + multiset(a[hi..])[a[i]];
        CountAtMostOne(b, a[i]);
        assert false;
      }
    }
  }

  lemma {:induction false} CountAtMostOne<T>(s: seq<T>, x: T)
    requires Distinct(s)
    ensures multiset(s)[x] <= 1
  {
    if s != [] {
      assert s == [s[0]] + s[1..];
      assert Distinct(s[1..]) by {
        forall i, j | 0 <= i < |s| - 1 && 0 <= j < |s| - 1 && i != j ensures s[1..][i] != s[1..][j]
        {
          assert s[1..][i] == s[i + 1] && s[1..][j] == s[j + 1];
        }
      }
      CountAtMostOne(s[1..], x);
      if s[0] == x {
        assert x !in s[1..] by {
          forall k | 0 <= k < |s| - 1 ensures s[1..][k] != x
          {
            assert s[1..][k] == s[k + 1];
          }
        }
      }
    }
  }

  /** `[i for i in s if i != x]`. */
  function DropValue(s: seq<nat>, x: nat): (r: seq<nat>)
    ensures forall y :: y in r <==> y in s && y != x
    ensures |r| <= |s|
  {
    if s == [] then []
    else if s[0] == x then DropValue(s[1..], x)
    else [s[0]] + DropValue(s[1..], x)
  }

  /** The filter removes every occurrence of the value and nothing else. */
  lemma {:induction false} DropValueLength(s: seq<nat>, x: nat)
    ensures |DropValue(s, x)| == |s| - multiset(s)[x]
  {
    if s != [] {
      DropValueLength(s[1..], x);
      assert s == [s[0]] + s[1..];
    }
  }

  lemma {:induction false} DropValueFacts(s: seq<nat>, x: nat, scores: seq<real>)
    requires Distinct(s) && x in s
    requires DescendingBy(s, scores)
    ensures |DropValue(s, x)| == |s| - 1
    ensures Distinct(DropValue(s, x))
    ensures DescendingBy(DropValue(s, x), scores)
  {
    var t := s[1..];
    assert Distinct(t) && DescendingBy(t, scores) by {
      forall i, j | 0 <= i < |t| && 0 <= j < |t| && i != j ensures t[i] != t[j]
      {
        assert t[i] == s[i + 1] && t[j] == s[j + 1];
      }
      forall i, j | 0 <= i < j < |t| ensures scores[t[j]] <= scores[t[i]]
      {
        assert t[i] == s[i + 1] && t[j] == s[j + 1];
      }
    }
    assert s[0] !in t by {
      forall k | 0 <= k < |t| ensures t[k] != s[0] { assert t[k] == s[k + 1]; }
    }
    if s[0] == x {
      DropValueAbsent(t, x);
    } else {
      DropValueFacts(t, x, scores);
      var d := DropValue(t, x);
      forall k | 0 <= k < |d| ensures scores[d[k]] <= scores[s[0]] && d[k] != s[0]
      {
        assert d[k] in t;
        var m :| 0 <= m < |t| && t[m] == d[k];
        assert t[m] == s[m + 1];
      }
    }
  }

  lemma {:induction false} DropValueAbsent(s: seq<nat>, x: nat)
    requires x !in s
    ensures DropValue(s, x) == s
  {
    if s != [] {
      DropValueAbsent(s[1..], x);
    }
  }

  /** The first `n` elements, or all of them when there are fewer (`s[:n]` for n >= 0). */
  function Take<T>(s: seq<T>, n: nat): (r: seq<T>)
    ensures |r| == Min(n, |s|)
    ensures r == s[..|r|]
  {
    s[..Min(n, |s|)]
  }

  /** Cutting a descending sequence after `n` keeps the `n` best: nothing left out outranks anything kept. */
  lemma TakeKeepsBest(idx: seq<nat>, scores: seq<real>, n: nat)
    requires DescendingBy(idx, scores)
    ensures forall a, b :: a in Take(idx, n) && b in idx && b !in Take(idx, n) ==> scores[b] <= scores[a]
  {
    var t := Take(idx, n);
    forall a, b | a in t && b in idx && b !in t ensures scores[b] <= scores[a]
    {
      var i :| 0 <= i < |t| && t[i] == a;
      var j :| 0 <= j < |idx| && idx[j] == b;
      assert forall m :: 0 <= m < |t| ==> t[m] == idx[m];
      assert j >= |t|;
      assert idx[i] == a;
    }
  }

  /** Reordering keeps items apart: a permutation of a sequence with distinct items has distinct items. */
  lemma ItemsDistinctPreserved<T>(a: seq<Ranked<T>>, b: seq<Ranked<T>>)
    requires multiset(a) == multiset(b)
    requires Distinct(Items(b))
    ensures Distinct(Items(a))
  {
    assert Distinct(b) by {
      forall p, q | 0 <= p < |b| && 0 <= q < |b| && p != q ensures b[p] != b[q]
      {
        assert Items(b)[p] != Items(b)[q];
      }
    }
    DistinctFromMultiset(a, b);
    forall i, j | 0 <= i < |a| && 0 <= j < |a| && i != j ensures Items(a)[i] != Items(a)[j]
    {
      assert a[i] in multiset(b) && a[j] in multiset(b);
      var p :| 0 <= p < |b| && b[p] == a[i];
      var q :| 0 <= q < |b| && b[q] == a[j];
      assert Items(b)[p] != Items(b)[q];
    }
  }

  /**
   * Sorting in descending key order and keeping the first `n`: `Min(n, |s|)` entries of `s`,
   * still descending and with distinct items, and nothing left out ranks above anything kept.
   */
  lemma SortTakeFacts<T>(s: seq<Ranked<T>>, n: nat)
    requires Distinct(Items(s))
    ensures var t := Take(SortDesc(s), n);
      && |t| == Min(n, |s|)
      && Descending(t)
      && Distinct(Items(t))
      && (forall x :: x in t ==> x in s)
      && (forall x, y :: x in s && x !in t && y in t ==> KeyLe(x.key, y.key))
  {
    var r := SortDesc(s);
    var t := Take(r, n);
    ItemsDistinctPreserved(r, s);
    TakePrefixFacts(r, n);
    forall x | x in t ensures x in s
    {
      assert x in multiset(r);
    }
    forall x, y | x in s && x !in t && y in t ensures KeyLe(x.key, y.key)
    {
      assert x in multiset(r);
    }
  }

  /** The first `n` of a descending sequence with distinct items. */
  lemma TakePrefixFacts<T>(r: seq<Ranked<T>>, n: nat)
    requires Descending(r) && Distinct(Items(r))
    ensures var t := Take(r, n);
      && Descending(t)
      && Distinct(Items(t))
      && (forall x :: x in t ==> x in r)
      && (forall x, y :: x in r && x !in t && y in t ==> KeyLe(x.key, y.key))
  {
    var t := Take(r, n);
    assert forall m :: 0 <= m < |t| ==> t[m] == r[m];
    forall i, j | 0 <= i < |t| && 0 <= j < |t| && i != j ensures Items(t)[i] != Items(t)[j]
    {
      assert Items(r)[i] != Items(r)[j];
    }
    forall x, y | x in r && x !in t && y in t ensures KeyLe(x.key, y.key)
    {
      var j :| 0 <= j < |r| && r[j] == x;
      var i :| 0 <= i < |t| && t[i] == y;
      assert j >= |t|;
    }
  }
}
