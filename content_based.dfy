/**
 * Content-based recommendation over genre tags: parsing the pipe-delimited genre string,
 * the binary genre encoding over the sorted tag universe, the cosine-similarity index
 * (characterised without square roots), the title lookup and the ranking of similar rows.
 */
module ContentBased {

  import opened Catalog
  import opened Ranking

  const Pipe: char := '|'
  const NoGenres: string := "(no genres listed)"

  // ---------------------------------------------------------------------------
  // Parsing genre strings
  // ---------------------------------------------------------------------------

  /** Python's `str.isspace` for one character (the code points it treats as whitespace). */
  predicate IsSpace(c: char)
  {
    var n := c as int;
    (9 <= n <= 13) || (28 <= n <= 32) || n == 0x85 || n == 0xA0 || n == 0x1680
    || (0x2000 <= n <= 0x200A) || n == 0x2028 || n == 0x2029 || n == 0x202F
    || n == 0x205F || n == 0x3000
  }

  /** `s.lstrip()`: the suffix left after dropping leading whitespace. */
  function StripLeading(s: string): (r: string)
    ensures |r| <= |s| && r == s[|s| - |r|..]
    ensures r == [] || !IsSpace(r[0])
    ensures forall i :: 0 <= i < |s| - |r| ==> IsSpace(s[i])
  {
    if s != [] && IsSpace(s[0]) then StripLeading(s[1..]) else s
  }

  /** `s.rstrip()`: the prefix left after dropping trailing whitespace. */
  function StripTrailing(s: string): (r: string)
    ensures |r| <= |s| && r == s[..|r|]
    ensures r == [] || !IsSpace(r[|r| - 1])
    ensures forall i :: |r| <= i < |s| ==> IsSpace(s[i])
  {
    if s != [] && IsSpace(s[|s| - 1]) then StripTrailing(s[..|s| - 1]) else s
  }

  /** `s.strip()`. */
  function Strip(s: string): string
  {
    StripTrailing(StripLeading(s))
  }

  /** The string is empty or made of whitespace only. */
  predicate IsBlank(s: string)
  {
    forall i :: 0 <= i < |s| ==> IsSpace(s[i])
  }

  /** `s.strip() == ""` holds of exactly the blank strings. */
  lemma StripEmptyIffBlank(s: string)
    ensures Strip(s) == [] <==> IsBlank(s)
  {
    var t := StripLeading(s);
    assert forall i :: 0 <= i < |t| ==> t[i] == s[|s| - |t| + i];
  }

  /** `s.split("|")`: always at least one piece, and no piece holds a pipe. */
  function Split(s: string): (r: seq<string>)
    ensures |r| >= 1
    ensures forall t :: t in r ==> Pipe !in t
  {
    if s == [] then [[]]
    else
      var rest := Split(s[1..]);
      if s[0] == Pipe then [[]] + rest
      else [[s[0]] + rest[0]] + rest[1..]
  }

  /** `"|".join(parts)`: the first piece comes first, followed by a pipe when more pieces follow. */
  function Join(parts: seq<string>): (r: string)
    requires |parts| >= 1
    ensures parts[0] <= r
    ensures |parts| > 1 ==> |r| > |parts[0]| && r[|parts[0]|] == Pipe
  {
    if |parts| == 1 then parts[0] else parts[0] + [Pipe] + Join(parts[1..])
  }

  /** Joining the pieces of a split gives back the original string. */
  lemma {:induction false} JoinSplit(s: string)
    ensures Join(Split(s)) == s
  {
    if s != [] {
      var rest := Split(s[1..]);
      JoinSplit(s[1..]);
      if s[0] != Pipe {
        if |rest| > 1 {
          assert ([[s[0]] + rest[0]] + rest[1..])[1..] == rest[1..];
          calc {
            Join([[s[0]] + rest[0]] + rest[1..]);
            [s[0]] + rest[0] + [Pipe] + Join(rest[1..]);
            [s[0]] + (rest[0] + [Pipe] + Join(rest[1..]));
            [s[0]] + Join(rest);
          }
        }
        assert s == [s[0]] + s[1..];
      } else {
        assert ([[]] + rest)[1..] == rest;
        assert s == [Pipe] + s[1..];
      }
    }
  }

  /** Splitting a pipe-free piece followed by a pipe peels off exactly that piece. */
  lemma {:induction false} SplitPrefix(p: string, tail: string)
    requires Pipe !in p
    ensures Split(p + [Pipe] + tail) == [p] + Split(tail)
  {
    if p == [] {
      assert p + [Pipe] + tail == [Pipe] + tail;
      assert ([Pipe] + tail)[1..] == tail;
    } else {
      var s := p + [Pipe] + tail;
      assert s[1..] == p[1..] + [Pipe] + tail;
      SplitPrefix(p[1..], tail);
      assert [p[0]] + p[1..] == p;
    }
  }

  /** A pipe-free string splits into itself. */
  lemma {:induction false} SplitNoPipe(p: string)
    requires Pipe !in p
    ensures Split(p) == [p]
  {
    if p != [] {
      SplitNoPipe(p[1..]);
      assert [p[0]] + p[1..] == p;
    }
  }

  /** Splitting joined pipe-free pieces gives back the pieces. */
  lemma {:induction false} SplitJoin(parts: seq<string>)
    requires |parts| >= 1
    requires forall t :: t in parts ==> Pipe !in t
    ensures Split(Join(parts)) == parts
  {
    if |parts| == 1 {
      SplitNoPipe(parts[0]);
    } else {
      assert parts[0] in parts;
      assert forall t :: t in parts[1..] ==> t in parts;
      SplitJoin(parts[1..]);
      SplitPrefix(parts[0], Join(parts[1..]));
      assert parts == [parts[0]] + parts[1..];
    }
  }

  /**
   * `_parse_genres`: a blank string or the sentinel "(no genres listed)" has no tags;
   * otherwise the tags are the pipe-separated pieces, and joining them restores the string.
   */
  function ParseGenres(s: string): (tags: seq<string>)
    ensures tags == [] <==> IsBlank(s) || s == NoGenres
    ensures tags != [] ==> Join(tags) == s
    ensures forall t :: t in tags ==> Pipe !in t
  {
    if IsBlank(s) then []
    else if s == NoGenres then []
    else
      JoinSplit(s);
      Split(s)
  }

  // ---------------------------------------------------------------------------
  // The tag universe: the binarizer's classes, sorted as Python sorts strings
  // ---------------------------------------------------------------------------

  /** Python's `<` on strings: code point by code point, a proper prefix first. */
  predicate StrLt(a: string, b: string)
    decreases |a|
  {
    if a == [] then b != []
    else if b == [] then false
    else a[0] < b[0] || (a[0] == b[0] && StrLt(a[1..], b[1..]))
  }

  lemma {:induction false} StrLtIrreflexive(a: string)
    ensures !StrLt(a, a)
  {
    if a != [] {
      StrLtIrreflexive(a[1..]);
    }
  }

  lemma {:induction false} StrLtTransitive(a: string, b: string, c: string)
    requires StrLt(a, b) && StrLt(b, c)
    ensures StrLt(a, c)
    decreases |a|
  {
    if a != [] && b != [] && c != [] && a[0] == b[0] && b[0] == c[0] {
      StrLtTransitive(a[1..], b[1..], c[1..]);
    }
  }

  lemma {:induction false} StrLtTotal(a: string, b: string)
    requires a != b
    ensures StrLt(a, b) || StrLt(b, a)
    decreases |a|
  {
    if a != [] && b != [] && a[0] == b[0] {
      assert a == [a[0]] + a[1..] && b == [b[0]] + b[1..];
      StrLtTotal(a[1..], b[1..]);
    }
  }

  /** Strictly increasing in Python string order (so also free of duplicates). */
  predicate TagsSorted(u: seq<string>)
  {
    forall i, j :: 0 <= i < j < |u| ==> StrLt(u[i], u[j])
  }

  lemma TagsSortedDistinct(u: seq<string>)
    requires TagsSorted(u)
    ensures Distinct(u)
  {
    forall i, j | 0 <= i < |u| && 0 <= j < |u| && i != j ensures u[i] != u[j]
    {
      if i < j { StrLtIrreflexive(u[i]); } else { StrLtIrreflexive(u[j]); }
    }
  }

  /** Adds one tag to a sorted tag list, keeping it sorted and free of duplicates. */
  function InsertTag(u: seq<string>, t: string): (r: seq<string>)
    requires TagsSorted(u)
    ensures TagsSorted(r)
    ensures Elems(r) == Elems(u) + {t}
  {
    if u == [] then [t]
    else if t == u[0] then u
    else if StrLt(t, u[0]) then
      InsertTagFront(u, t);
      [t] + u
    else
      var rest := InsertTag(u[1..], t);
      InsertTagBehind(u, t, rest);
      [u[0]] + rest
  }

  lemma InsertTagFront(u: seq<string>, t: string)
    requires TagsSorted(u) && u != [] && StrLt(t, u[0])
    ensures TagsSorted([t] + u) && Elems([t] + u) == Elems(u) + {t}
  {
    forall j | 0 <= j < |u| ensures StrLt(t, u[j])
    {
      if j > 0 { StrLtTransitive(t, u[0], u[j]); }
    }
  }

  lemma InsertTagBehind(u: seq<string>, t: string, rest: seq<string>)
    requires TagsSorted(u) && u != [] && t != u[0] && !StrLt(t, u[0])
    requires TagsSorted(rest) && Elems(rest) == Elems(u[1..]) + {t}
    ensures TagsSorted([u[0]] + rest) && Elems([u[0]] + rest) == Elems(u) + {t}
  {
    StrLtTotal(t, u[0]);
    assert Elems([u[0]] + rest) == {u[0]} + Elems(rest);
    assert u == [u[0]] + u[1..];
    assert Elems(u) == {u[0]} + Elems(u[1..]);
    forall k | 0 <= k < |rest| ensures StrLt(u[0], rest[k])
    {
      assert rest[k] in Elems(rest);
      if rest[k] != t {
        var m :| 0 <= m < |u| - 1 && u[1..][m] == rest[k];
        assert u[1..][m] == u[m + 1];
      }
    }
    assert u == [u[0]] + u[1..];
  }

  function InsertTags(u: seq<string>, tags: seq<string>): (r: seq<string>)
    requires TagsSorted(u)
    ensures TagsSorted(r)
    ensures Elems(r) == Elems(u) + Elems(tags)
    decreases |tags|
  {
    if tags == [] then u
    else
      assert tags == [tags[0]] + tags[1..];
      InsertTags(InsertTag(u, tags[0]), tags[1..])
  }

  /** Every tag that occurs in some list. */
  function AllTags(lists: seq<seq<string>>): set<string>
  {
    set l, t | l in lists && t in l :: t
  }

  /** `MultiLabelBinarizer.classes_`: the distinct tags of all movies, sorted. */
  function TagUniverse(lists: seq<seq<string>>): (u: seq<string>)
    ensures TagsSorted(u)
    ensures Elems(u) == AllTags(lists)
  {
    if lists == [] then []
    else
      var init := lists[..|lists| - 1];
      var last := lists[|lists| - 1];
      var u := InsertTags(TagUniverse(init), last);
      assert lists == init + [last];
      assert AllTags(lists) == AllTags(init) + Elems(last);
      u
  }

  // ---------------------------------------------------------------------------
  // Binary encoding and dot products
  // ---------------------------------------------------------------------------

  /** One movie's row of the binarized matrix: 1 in the column of each of its tags. */
  function Encode(tags: seq<string>, classes: seq<string>): (f: seq<int>)
    ensures |f| == |classes|
    ensures forall j :: 0 <= j < |classes| ==> f[j] == (if classes[j] in tags then 1 else 0)
  {
    seq(|classes|, j requires 0 <= j < |classes| => if classes[j] in tags then 1 else 0)
  }

  function Dot(x: seq<int>, y: seq<int>): int
    requires |x| == |y|
  {
    if x == [] then 0 else x[0] * y[0] + Dot(x[1..], y[1..])
  }

  /**
   * Over binary genre vectors the dot product counts the tags two movies share
   * (among the columns), so it is a natural number and symmetric.
   */
  lemma {:induction false} DotCountsSharedTags(a: seq<string>, b: seq<string>, classes: seq<string>)
    requires Distinct(classes)
    ensures Dot(Encode(a, classes), Encode(b, classes)) == |Elems(classes) * Elems(a) * Elems(b)|
  {
    if |classes| > 0 {
      var rest := classes[1..];
      var c := classes[0];
      DistinctTail(classes);
      DotCountsSharedTags(a, b, rest);
      EncodedDotStep(a, b, classes);
      ElemsFront(classes);
      SharedCount(c, Elems(rest), Elems(a), Elems(b));
    }
  }

  /** Peeling the first column off two encodings adds the flag of that tag being shared. */
  lemma EncodedDotStep(a: seq<string>, b: seq<string>, classes: seq<string>)
    requires |classes| > 0
    ensures Dot(Encode(a, classes), Encode(b, classes))
         == (if classes[0] in a && classes[0] in b then 1 else 0)
            + Dot(Encode(a, classes[1..]), Encode(b, classes[1..]))
  {
    var fa, fb := Encode(a, classes), Encode(b, classes);
    assert fa[1..] == Encode(a, classes[1..]) && fb[1..] == Encode(b, classes[1..]);
    FlagProduct(fa[0], fb[0], classes[0] in a, classes[0] in b);
  }

  lemma ElemsFront(s: seq<string>)
    requires |s| > 0
    ensures Elems(s) == {s[0]} + Elems(s[1..])
  {
    assert s == [s[0]] + s[1..];
  }

  lemma DistinctTail(classes: seq<string>)
    requires Distinct(classes) && |classes| > 0
    ensures Distinct(classes[1..]) && classes[0] !in classes[1..]
  {
    var rest := classes[1..];
    forall i, j | 0 <= i < |rest| && 0 <= j < |rest| && i != j ensures rest[i] != rest[j]
    {
      assert rest[i] == classes[i + 1] && rest[j] == classes[j + 1];
    }
    forall k | 0 <= k < |rest| ensures rest[k] != classes[0] { assert rest[k] == classes[k + 1]; }
  }

  /** The product of two 0/1 flags is the flag of the conjunction. */
  lemma FlagProduct(x: int, y: int, p: bool, q: bool)
    requires x == (if p then 1 else 0) && y == (if q then 1 else 0)
    ensures x * y == (if p && q then 1 else 0)
  {
  }

  lemma SharedCount(c: string, rest: set<string>, a: set<string>, b: set<string>)
    requires c !in rest
    ensures |({c} + rest) * a * b| == |rest * a * b| + (if c in a && c in b then 1 else 0)
  {
    if c in a && c in b {
      assert ({c} + rest) * a * b == rest * a * b + {c};
    } else {
      assert ({c} + rest) * a * b == rest * a * b;
    }
  }

  // ---------------------------------------------------------------------------
  // The fitted model
  // ---------------------------------------------------------------------------

  /** The parsed tag list of every catalog row, in catalog order. */
  function GenreLists(movies: seq<Movie>): (lists: seq<seq<string>>)
    ensures |lists| == |movies|
    ensures forall i :: 0 <= i < |movies| ==> lists[i] == ParseGenres(movies[i].genres)
  {
    seq(|movies|, i requires 0 <= i < |movies| => ParseGenres(movies[i].genres))
  }

  function Titles(movies: seq<Movie>): (titles: seq<string>)
    ensures |titles| == |movies|
    ensures forall i :: 0 <= i < |movies| ==> titles[i] == movies[i].title
  {
    seq(|movies|, i requires 0 <= i < |movies| => movies[i].title)
  }

  /**
   * `pd.Series(index_values, index=titles).to_dict()`: every title maps to a row that carries it,
   * and with duplicate titles the last such row wins.
   */
  function TitleIndex(titles: seq<string>): (m: map<string, nat>)
    ensures m.Keys == Elems(titles)
    ensures forall t :: t in m ==> m[t] < |titles| && titles[m[t]] == t
    ensures forall t, j :: t in m && m[t] < j < |titles| ==> titles[j] != t
  {
    if titles == [] then map[]
    else
      var n := |titles| - 1;
      var init := titles[..n];
      assert titles == init + [titles[n]];
      TitleIndex(init)[titles[n] := n]
  }

  /** What `fit_content_model` derives from the catalog besides the cosine matrix itself. */
  datatype ContentModel = ContentModel(classes: seq<string>, features: seq<seq<int>>, titleToIndex: map<string, nat>)

  function Features(lists: seq<seq<string>>, classes: seq<string>): (f: seq<seq<int>>)
    ensures |f| == |lists|
    ensures forall i :: 0 <= i < |lists| ==> f[i] == Encode(lists[i], classes)
  {
    seq(|lists|, i requires 0 <= i < |lists| => Encode(lists[i], classes))
  }

  /**
   * `fit_content_model` without the square roots: the sorted tag universe, one binary row per
   * movie with a 1 exactly in the columns of its tags, and the title lookup.
   */
  function FitContentModel(movies: seq<Movie>): (m: ContentModel)
    ensures TagsSorted(m.classes)
    ensures Elems(m.classes) == AllTags(GenreLists(movies))
    ensures |m.features| == |movies|
    ensures forall i :: 0 <= i < |movies| ==> |m.features[i]| == |m.classes|
    ensures forall i, j :: 0 <= i < |movies| && 0 <= j < |m.classes| ==>
      (m.features[i][j] == 1 <==> m.classes[j] in ParseGenres(movies[i].genres)) &&
      (m.features[i][j] == 0 <==> m.classes[j] !in ParseGenres(movies[i].genres))
    ensures m.titleToIndex == TitleIndex(Titles(movies))
  {
    var lists := GenreLists(movies);
    var classes := TagUniverse(lists);
    ContentModel(classes, Features(lists, classes), TitleIndex(Titles(movies)))
  }

  /** Every tag of every movie has a column in the fitted model. */
  lemma TagsCovered(movies: seq<Movie>, i: nat)
    requires i < |movies|
    ensures Elems(ParseGenres(movies[i].genres)) <= Elems(FitContentModel(movies).classes)
  {
    var lists := GenreLists(movies);
    assert lists[i] in lists;
  }

  /** Fitted rows: the dot product of two movies' rows is the number of distinct tags they share. */
  lemma FittedDot(movies: seq<Movie>, i: nat, j: nat)
    requires i < |movies| && j < |movies|
    ensures var m := FitContentModel(movies);
      Dot(m.features[i], m.features[j])
        == |Elems(ParseGenres(movies[i].genres)) * Elems(ParseGenres(movies[j].genres))|
  {
    var m := FitContentModel(movies);
    var a, b := ParseGenres(movies[i].genres), ParseGenres(movies[j].genres);
    TagsSortedDistinct(m.classes);
    TagsCovered(movies, i);
    TagsCovered(movies, j);
    DotCountsSharedTags(a, b, m.classes);
    assert Elems(m.classes) * Elems(a) * Elems(b) == Elems(a) * Elems(b);
  }

  /** The Gram matrix of the binary rows is symmetric. */
  lemma FittedDotSymmetric(movies: seq<Movie>, i: nat, j: nat)
    requires i < |movies| && j < |movies|
    ensures var m := FitContentModel(movies);
      Dot(m.features[i], m.features[j]) == Dot(m.features[j], m.features[i])
  {
    var a, b := ParseGenres(movies[i].genres), ParseGenres(movies[j].genres);
    FittedDot(movies, i, j);
    FittedDot(movies, j, i);
    assert Elems(a) * Elems(b) == Elems(b) * Elems(a);
  }

  // ---------------------------------------------------------------------------
  // Cosine similarity, characterised without square roots
  // ---------------------------------------------------------------------------

  /**
   * `c` is the cosine of two vectors with dot product `dot` and squared norms `ni`, `nj`:
   * 0 when either vector is zero, otherwise `c` has the sign of `dot` and
   * c^2 * ni * nj == dot^2, i.e. c == dot / sqrt(ni * nj).
   */
  predicate IsCosine(c: real, dot: int, ni: int, nj: int)
  {
    if ni == 0 || nj == 0 then c == 0.0
    else (c >= 0.0 <==> dot >= 0) && c * c * (ni as real) * (nj as real) == (dot * dot) as real
  }

  /** `sim` is `cosine_similarity(features)`: a square matrix of the pairwise cosines. */
  predicate IsCosineIndex(sim: seq<seq<real>>, features: seq<seq<int>>)
  {
    && |sim| == |features|
    && (forall i :: 0 <= i < |sim| ==> |sim[i]| == |features|)
    && (forall i :: 0 <= i < |features| ==> |features[i]| == |features[0]|)
    && forall i, j :: 0 <= i < |features| && 0 <= j < |features| ==>
         IsCosine(sim[i][j], Dot(features[i], features[j]), Dot(features[i], features[i]), Dot(features[j], features[j]))
  }

  /** The three conditions of `IsCosine` pin the entry down: two entries meeting them are equal. */
  lemma IsCosineUnique(c1: real, c2: real, dot: int, ni: int, nj: int)
    requires IsCosine(c1, dot, ni, nj) && IsCosine(c2, dot, ni, nj)
    ensures c1 == c2
  {
    if ni != 0 && nj != 0 {
      var p := (ni as real) * (nj as real);
      assert p != 0.0;
      assert (c1 * c1) * p == (c2 * c2) * p;
      assert (c1 * c1 - c2 * c2) * p == 0.0;
      assert c1 * c1 == c2 * c2;
      if dot >= 0 {
        SquareRootUnique(c1, c2);
      } else {
        SquareRootUnique(-c1, -c2);
      }
    }
  }

  /**
   * `IsCosineIndex` is a characterisation, not a loose abstraction: for given feature rows it admits
   * exactly one matrix, which is therefore the one `cosine_similarity` computes.
   */
  lemma CosineIndexUnique(sim1: seq<seq<real>>, sim2: seq<seq<real>>, features: seq<seq<int>>)
    requires IsCosineIndex(sim1, features) && IsCosineIndex(sim2, features)
    ensures sim1 == sim2
  {
    forall i | 0 <= i < |sim1| ensures sim1[i] == sim2[i]
    {
      forall j | 0 <= j < |sim1[i]| ensures sim1[i][j] == sim2[i][j]
      {
        IsCosineUnique(sim1[i][j], sim2[i][j], Dot(features[i], features[j]),
          Dot(features[i], features[i]), Dot(features[j], features[j]));
      }
    }
  }

  /** The entry (i, j) of a cosine index of the fitted rows, in terms of tag sets. */
  lemma CosineEntry(movies: seq<Movie>, sim: seq<seq<real>>, i: nat, j: nat)
    requires IsCosineIndex(sim, FitContentModel(movies).features)
    requires i < |movies| && j < |movies|
    ensures var a, b := Elems(ParseGenres(movies[i].genres)), Elems(ParseGenres(movies[j].genres));
      IsCosine(sim[i][j], |a * b|, |a|, |b|)
  {
    var a, b := ParseGenres(movies[i].genres), ParseGenres(movies[j].genres);
    FittedDot(movies, i, j);
    FittedDot(movies, i, i);
    FittedDot(movies, j, j);
    assert Elems(a) * Elems(a) == Elems(a);
    assert Elems(b) * Elems(b) == Elems(b);
  }

  lemma SquareRootUnique(x: real, y: real)
    requires x >= 0.0 && y >= 0.0 && x * x == y * y
    ensures x == y
  {
    assert (x - y) * (x + y) == 0.0;
    assert x - y == 0.0 || x + y == 0.0;
  }

  lemma CancelPositive(x: real, y: real, p: real)
    requires p > 0.0 && x * p == y * p
    ensures x == y
  {
    assert (x - y) * p == 0.0;
  }

  /**
   * Arithmetic of one cosine entry whose vectors share `d` tags out of `ni` and `nj`:
   * it lies in [0, 1], is positive exactly when `d` is, and is 1 when both vectors are the same set.
   */
  lemma CosineArith(c: real, d: int, ni: int, nj: int)
    requires IsCosine(c, d, ni, nj)
    requires 0 <= d <= ni && d <= nj
    ensures 0.0 <= c <= 1.0
    ensures c > 0.0 <==> d > 0
    ensures 0 < d == ni == nj ==> c == 1.0
  {
    if ni != 0 && nj != 0 {
      var p := (ni as real) * (nj as real);
      var dr := d as real;
      assert p > 0.0;
      assert (c * c) * p == dr * dr;
      assert dr * dr <= p by {
        assert dr * dr <= (ni as real) * dr;
        assert (ni as real) * dr <= p;
      }
      CosineLeOne(c, dr, p);
      if d > 0 {
        assert dr * dr > 0.0;
        assert c != 0.0;
      } else {
        CancelPositive(c * c, 0.0, p);
        SquareRootUnique(c, 0.0);
      }
      if 0 < d == ni == nj {
        CancelPositive(c * c, 1.0, p);
        SquareRootUnique(c, 1.0);
      }
    }
  }

  lemma CosineLeOne(c: real, dr: real, p: real)
    requires c >= 0.0 && p > 0.0 && (c * c) * p == dr * dr && dr * dr <= p
    ensures c <= 1.0
  {
    assert (c * c - 1.0) * p <= 0.0;
    assert c * c <= 1.0;
  }

  /** Swapping the two vectors of one cosine entry does not change it. */
  lemma CosineArithSymmetric(c1: real, c2: real, d: int, ni: int, nj: int)
    requires IsCosine(c1, d, ni, nj) && IsCosine(c2, d, nj, ni)
    requires 0 <= d && 0 <= ni && 0 <= nj
    ensures c1 == c2
  {
    if ni != 0 && nj != 0 {
      var p := (ni as real) * (nj as real);
      assert p > 0.0;
      assert (c1 * c1) * p == (d * d) as real;
      assert (c2 * c2) * p == (d * d) as real;
      CancelPositive(c1 * c1, c2 * c2, p);
      SquareRootUnique(c1, c2);
    }
  }

  /** The cosine index of the genre vectors is symmetric. */
  lemma CosineSymmetric(movies: seq<Movie>, sim: seq<seq<real>>, i: nat, j: nat)
    requires IsCosineIndex(sim, FitContentModel(movies).features)
    requires i < |movies| && j < |movies|
    ensures sim[i][j] == sim[j][i]
  {
    var a, b := Elems(ParseGenres(movies[i].genres)), Elems(ParseGenres(movies[j].genres));
    CosineEntry(movies, sim, i, j);
    CosineEntry(movies, sim, j, i);
    assert a * b == b * a;
    SharedBounds(a, b);
    CosineArithSymmetric(sim[i][j], sim[j][i], |a * b|, |a|, |b|);
  }

  /** Two movies have positive similarity exactly when they share a genre tag. */
  lemma CosinePositiveIffShared(movies: seq<Movie>, sim: seq<seq<real>>, i: nat, j: nat)
    requires IsCosineIndex(sim, FitContentModel(movies).features)
    requires i < |movies| && j < |movies|
    ensures sim[i][j] > 0.0 <==> exists t :: t in ParseGenres(movies[i].genres) && t in ParseGenres(movies[j].genres)
  {
    var x, y := ParseGenres(movies[i].genres), ParseGenres(movies[j].genres);
    var a, b := Elems(x), Elems(y);
    CosineEntry(movies, sim, i, j);
    SharedBounds(a, b);
    CosineArith(sim[i][j], |a * b|, |a|, |b|);
    SharedIffCommon(x, y);
  }

  lemma SharedIffCommon(x: seq<string>, y: seq<string>)
    ensures |Elems(x) * Elems(y)| > 0 <==> exists t :: t in x && t in y
  {
    if exists t :: t in x && t in y {
      var t :| t in x && t in y;
      assert t in Elems(x) * Elems(y);
    } else {
      assert Elems(x) * Elems(y) == {};
    }
  }

  lemma SharedBounds(a: set<string>, b: set<string>)
    ensures |a * b| <= |a| && |a * b| <= |b|
  {
    assert a == (a * b) + (a - b) && (a * b) * (a - b) == {};
    assert b == (a * b) + (b - a) && (a * b) * (b - a) == {};
  }

  /** A movie with at least one tag is maximally similar to itself; one without tags has similarity 0. */
  lemma CosineSelf(movies: seq<Movie>, sim: seq<seq<real>>, i: nat)
    requires IsCosineIndex(sim, FitContentModel(movies).features)
    requires i < |movies|
    ensures ParseGenres(movies[i].genres) != [] ==> sim[i][i] == 1.0
    ensures ParseGenres(movies[i].genres) == [] ==> sim[i][i] == 0.0
  {
    var tags := ParseGenres(movies[i].genres);
    var a := Elems(tags);
    CosineEntry(movies, sim, i, i);
    assert a * a == a;
    CosineArith(sim[i][i], |a|, |a|, |a|);
    if tags != [] {
      assert tags[0] in a;
    } else {
      assert a == {};
    }
  }

  /** Cosine similarities of genre vectors lie in [0, 1]. */
  lemma CosineBounds(movies: seq<Movie>, sim: seq<seq<real>>, i: nat, j: nat)
    requires IsCosineIndex(sim, FitContentModel(movies).features)
    requires i < |movies| && j < |movies|
    ensures 0.0 <= sim[i][j] <= 1.0
  {
    var a, b := Elems(ParseGenres(movies[i].genres)), Elems(ParseGenres(movies[j].genres));
    CosineEntry(movies, sim, i, j);
    SharedBounds(a, b);
    CosineArith(sim[i][j], |a * b|, |a|, |b|);
  }

  // ---------------------------------------------------------------------------
  // Recommending by title
  // ---------------------------------------------------------------------------

  /**
   * The rows `recommend_by_title` picks from similarity row `row` of movie `idx`: every other
   * row ranked by descending similarity, cut after `topN`.
   */
  function SimilarRows(row: seq<real>, idx: nat, topN: nat): (r: seq<nat>)
    requires idx < |row|
    ensures |r| == Min(topN, |row| - 1)
    ensures Distinct(r)
    ensures idx !in r
    ensures DescendingBy(r, row)
    ensures forall a, b :: a in r && 0 <= b < |row| && b != idx && b !in r ==> row[b] <= row[a]
  {
    SimilarRowsFacts(row, idx, topN);
    Take(DropValue(Argsort(row), idx), topN)
  }

  lemma SimilarRowsFacts(row: seq<real>, idx: nat, topN: nat)
    requires idx < |row|
    ensures var r := Take(DropValue(Argsort(row), idx), topN);
      && |r| == Min(topN, |row| - 1)
      && Distinct(r)
      && idx !in r
      && DescendingBy(r, row)
      && forall a, b :: a in r && 0 <= b < |row| && b != idx && b !in r ==> row[b] <= row[a]
  {
    var order := Argsort(row);
    var others := DropValue(order, idx);
    DropValueFacts(order, idx, row);
    TakeKeepsBest(others, row, topN);
    var r := Take(others, topN);
    assert forall k :: 0 <= k < |r| ==> r[k] == others[k];
  }

  datatype ContentError = TitleNotFound(title: string)

  /** One output row: `rank`, `movieId`, `title`, `genres`. */
  datatype TitleRec = TitleRec(rank: nat, movieId: int, title: string, genres: string)

  /**
   * `recommend_by_title`: an unknown title is an error; otherwise the `min(topN, M - 1)` rows most
   * similar to the title's row, never the row itself, ranked 1, 2, ... in descending similarity.
   */
  function RecommendByTitle(title: string, sim: seq<seq<real>>, titleToIndex: map<string, nat>,
                            movies: seq<Movie>, topN: nat): (r: Result<seq<TitleRec>, ContentError>)
    requires |sim| == |movies| && forall i :: 0 <= i < |sim| ==> |sim[i]| == |movies|
    requires forall t :: t in titleToIndex ==> titleToIndex[t] < |movies|
    ensures r.Err? <==> title !in titleToIndex
    ensures r.Err? ==> r.error == TitleNotFound(title)
    ensures r.Ok? ==>
      var idx := titleToIndex[title];
      var rows := SimilarRows(sim[idx], idx, topN);
      && |r.value| == Min(topN, |movies| - 1)
      && forall k :: 0 <= k < |r.value| ==>
           && r.value[k].rank == k + 1
           && r.value[k] == TitleRec(k + 1, movies[rows[k]].movieId, movies[rows[k]].title, movies[rows[k]].genres)
    ensures r.Ok? && UniqueMovieIds(movies) ==>
      forall k :: 0 <= k < |r.value| ==> r.value[k].movieId != movies[titleToIndex[title]].movieId
  {
    if title !in titleToIndex then Err(TitleNotFound(title))
    else
      var idx := titleToIndex[title];
      var rows := SimilarRows(sim[idx], idx, topN);
      Ok(seq(|rows|, k requires 0 <= k < |rows| =>
        TitleRec(k + 1, movies[rows[k]].movieId, movies[rows[k]].title, movies[rows[k]].genres)))
  }
}
