/** The two sorts the matcher relies on: strings in ascending order (LINQ
    `OrderBy(x => x)`), and a stable descending ranking by a pair of integers
    (LINQ `OrderByDescending` on a tuple key). */
module Sorting {

  // ---------------------------------------------------------------------------
  // Strings in ascending order

  /** Ordinal order on strings: a prefix comes first, otherwise the first
      differing character decides. */
  predicate StringLe(a: string, b: string)
    decreases |a|
  {
    a == [] || (b != [] && (a[0] < b[0] || (a[0] == b[0] && StringLe(a[1..], b[1..]))))
  }

  lemma {:induction false} StringLeTotal(a: string, b: string)
    ensures StringLe(a, b) || StringLe(b, a)
    decreases |a|
  {
    if a != [] && b != [] && a[0] == b[0] {
      StringLeTotal(a[1..], b[1..]);
    }
  }

  lemma {:induction false} StringLeAntisymmetric(a: string, b: string)
    requires StringLe(a, b) && StringLe(b, a)
    ensures a == b
    decreases |a|
  {
    if a != [] {
      StringLeAntisymmetric(a[1..], b[1..]);
      assert a == [a[0]] + a[1..] && b == [b[0]] + b[1..];
    }
  }

  lemma {:induction false} StringLeTransitive(a: string, b: string, c: string)
    requires StringLe(a, b) && StringLe(b, c)
    ensures StringLe(a, c)
    decreases |a|
  {
    if a != [] && a[0] == b[0] && b[0] == c[0] {
      StringLeTransitive(a[1..], b[1..], c[1..]);
    }
  }

  lemma {:induction false} StringLeReflexive(a: string)
    ensures StringLe(a, a)
    decreases |a|
  {
    if a != [] {
      StringLeReflexive(a[1..]);
    }
  }

  predicate SortedStrings(s: seq<string>)
  {
    forall i, j :: 0 <= i < j < |s| ==> StringLe(s[i], s[j])
  }

  /** `x` placed before the first element it does not follow. */
  function InsertString(x: string, s: seq<string>): seq<string>
  {
    if s == [] || StringLe(x, s[0]) then [x] + s else [s[0]] + InsertString(x, s[1..])
  }

  lemma {:induction false} InsertStringPermutes(x: string, s: seq<string>)
    ensures multiset(InsertString(x, s)) == multiset(s) + multiset{x}
  {
    if s != [] && !StringLe(x, s[0]) {
      InsertStringPermutes(x, s[1..]);
      assert s == [s[0]] + s[1..];
    }
  }

  lemma {:induction false} InsertStringSorted(x: string, s: seq<string>)
    requires SortedStrings(s)
    ensures SortedStrings(InsertString(x, s))
  {
    var r := InsertString(x, s);
    if s == [] {
    } else if StringLe(x, s[0]) {
      forall j | 0 < j < |r| ensures StringLe(x, r[j]) {
        if j > 1 {
          StringLeTransitive(x, s[0], s[j - 1]);
        }
      }
    } else {
      StringLeTotal(x, s[0]);
      var t := InsertString(x, s[1..]);
      assert SortedStrings(s[1..]);
      InsertStringSorted(x, s[1..]);
      InsertStringPermutes(x, s[1..]);
      forall j | 0 < j < |r| ensures StringLe(s[0], r[j]) {
        var y := t[j - 1];
        assert r[j] == y;
        assert y in multiset(s[1..]) + multiset{x};
        if y != x {
          var k :| 0 <= k < |s[1..]| && s[1..][k] == y;
          assert s[k + 1] == y;
        }
      }
    }
  }

  /** The strings of `s` in ascending order: an insertion sort. */
  function SortStrings(s: seq<string>): (r: seq<string>)
    ensures multiset(r) == multiset(s)
    ensures SortedStrings(r)
  {
    if s == [] then []
    else
      var rest := SortStrings(s[1..]);
      InsertStringPermutes(s[0], rest);
      InsertStringSorted(s[0], rest);
      assert s == [s[0]] + s[1..];
      InsertString(s[0], rest)
  }

  lemma MultisetTail<T>(s: seq<T>)
    requires s != []
    ensures multiset(s[1..]) == multiset(s) - multiset{s[0]}
  {
    assert s == [s[0]] + s[1..];
  }

  /** The first element of a sorted sequence is below all of its elements. */
  lemma SortedFirstLeast(s: seq<string>, x: string)
    requires SortedStrings(s) && x in s
    ensures StringLe(s[0], x)
  {
    var i :| 0 <= i < |s| && s[i] == x;
    if i == 0 {
      StringLeReflexive(x);
    }
  }

  /** Two sorted sequences with the same elements are equal. */
  lemma {:induction false} SortedUnique(s: seq<string>, t: seq<string>)
    requires SortedStrings(s) && SortedStrings(t)
    requires multiset(s) == multiset(t)
    ensures s == t
    decreases |s|
  {
    assert |t| == |s| by {
      assert |multiset(s)| == |s| && |multiset(t)| == |t|;
    }
    if s != [] {
      assert s[0] == t[0] by {
        assert s[0] in multiset(t) && t[0] in multiset(s);
        SortedFirstLeast(t, s[0]);
        SortedFirstLeast(s, t[0]);
        StringLeAntisymmetric(s[0], t[0]);
      }
      assert multiset(s[1..]) == multiset(t[1..]) by {
        MultisetTail(s);
        MultisetTail(t);
      }
      assert SortedStrings(s[1..]) && SortedStrings(t[1..]);
      SortedUnique(s[1..], t[1..]);
      assert s == [s[0]] + s[1..] && t == [t[0]] + t[1..];
    }
  }

  /** Sorting two sequences gives equal results exactly when they hold the
      same strings, each as many times. */
  lemma SortedEqualIffSameElements(s: seq<string>, t: seq<string>)
    ensures SortStrings(s) == SortStrings(t) <==> multiset(s) == multiset(t)
  {
    if multiset(s) == multiset(t) {
      SortedUnique(SortStrings(s), SortStrings(t));
    }
  }

  // ---------------------------------------------------------------------------
  // Stable descending ranking by a pair key

  /** Index `x` ranks ahead of index `y`: a greater key, first component
      first, or an equal key and an earlier position. */
  predicate Ahead(keys: seq<(int, int)>, x: nat, y: nat)
  {
    && x < |keys| && y < |keys|
    && (|| keys[x].0 > keys[y].0
        || (keys[x].0 == keys[y].0 && keys[x].1 > keys[y].1)
        || (keys[x] == keys[y] && x < y))
  }

  lemma AheadTotal(keys: seq<(int, int)>, x: nat, y: nat)
    requires x < |keys| && y < |keys| && x != y
    ensures Ahead(keys, x, y) || Ahead(keys, y, x)
  {
  }

  lemma AheadTransitive(keys: seq<(int, int)>, x: nat, y: nat, z: nat)
    requires Ahead(keys, x, y) && Ahead(keys, y, z)
    ensures Ahead(keys, x, z)
  {
  }

  /** Every index ranks ahead of every later one. */
  predicate Ranked(keys: seq<(int, int)>, s: seq<nat>)
  {
    && (forall i :: 0 <= i < |s| ==> s[i] < |keys|)
    && (forall i, j :: 0 <= i < j < |s| ==> Ahead(keys, s[i], s[j]))
  }

  lemma RankedCons(keys: seq<(int, int)>, x: nat, t: seq<nat>)
    requires x < |keys| && Ranked(keys, t)
    requires forall y :: y in t ==> Ahead(keys, x, y)
    ensures Ranked(keys, [x] + t)
  {
    var r := [x] + t;
    forall i, j | 0 <= i < j < |r| ensures Ahead(keys, r[i], r[j]) {
      assert r[j] == t[j - 1] && r[j] in t;
      if i > 0 {
        assert r[i] == t[i - 1];
      }
    }
  }

  lemma RankedHead(keys: seq<(int, int)>, s: seq<nat>)
    requires Ranked(keys, s) && s != []
    ensures Ranked(keys, s[1..])
    ensures forall y :: y in s[1..] ==> Ahead(keys, s[0], y)
  {
    forall y | y in s[1..] ensures Ahead(keys, s[0], y) {
      var k :| 0 <= k < |s[1..]| && s[1..][k] == y;
      assert s[k + 1] == y;
    }
  }

  /** `x` placed before the first index it ranks ahead of. */
  function InsertIndex(keys: seq<(int, int)>, x: nat, s: seq<nat>): seq<nat>
  {
    if s == [] || Ahead(keys, x, s[0]) then [x] + s else [s[0]] + InsertIndex(keys, x, s[1..])
  }

  lemma {:induction false} InsertIndexMultiset(keys: seq<(int, int)>, x: nat, s: seq<nat>)
    ensures multiset(InsertIndex(keys, x, s)) == multiset(s) + multiset{x}
  {
    if s != [] && !Ahead(keys, x, s[0]) {
      InsertIndexMultiset(keys, x, s[1..]);
      assert s == [s[0]] + s[1..];
    }
  }

  lemma {:induction false} InsertIndexRanked(keys: seq<(int, int)>, x: nat, s: seq<nat>)
    requires x < |keys| && Ranked(keys, s) && x !in s
    ensures Ranked(keys, InsertIndex(keys, x, s))
  {
    if s == [] {
    } else if Ahead(keys, x, s[0]) {
      RankedHead(keys, s);
      forall y | y in s ensures Ahead(keys, x, y) {
        if y != s[0] {
          assert y in s[1..] by {
            var k :| 0 <= k < |s| && s[k] == y;
            assert s[1..][k - 1] == y;
          }
          AheadTransitive(keys, x, s[0], y);
        }
      }
      RankedCons(keys, x, s);
    } else {
      AheadTotal(keys, x, s[0]);
      RankedHead(keys, s);
      assert x !in s[1..];
      InsertIndexRanked(keys, x, s[1..]);
      InsertIndexMultiset(keys, x, s[1..]);
      var t := InsertIndex(keys, x, s[1..]);
      forall y | y in t ensures Ahead(keys, s[0], y) {
        assert y in multiset(s[1..]) + multiset{x};
      }
      RankedCons(keys, s[0], t);
    }
  }

  /** The indices `0 .. n - 1`, in order. */
  function Indices(n: nat): (r: seq<nat>)
    ensures |r| == n && forall i :: 0 <= i < n ==> r[i] == i
  {
    seq(n, i requires 0 <= i => i)
  }

  lemma IndicesStep(n: nat)
    requires n > 0
    ensures Indices(n) == Indices(n - 1) + [n - 1]
    ensures n - 1 !in multiset(Indices(n - 1))
  {
  }

  /** The indices `0 .. n - 1` in ranking order: an insertion sort, which keeps
      indices with equal keys in their original order. */
  function RankIndices(keys: seq<(int, int)>, n: nat): (r: seq<nat>)
    requires n <= |keys|
    ensures multiset(r) == multiset(Indices(n))
    ensures Ranked(keys, r)
  {
    if n == 0 then []
    else
      var rest := RankIndices(keys, n - 1);
      IndicesStep(n);
      assert n - 1 !in rest by {
        assert n - 1 !in multiset(rest);
      }
      InsertIndexRanked(keys, n - 1, rest);
      InsertIndexMultiset(keys, n - 1, rest);
      InsertIndex(keys, n - 1, rest)
  }

  /** The ranking holds every index below `n` exactly once. */
  lemma RankIndicesPermutation(keys: seq<(int, int)>, n: nat)
    requires n <= |keys|
    ensures |RankIndices(keys, n)| == n
    ensures forall x: nat :: x in RankIndices(keys, n) <==> x < n
    ensures forall i, j :: 0 <= i < j < n ==> RankIndices(keys, n)[i] != RankIndices(keys, n)[j]
  {
    var r := RankIndices(keys, n);
    var m := multiset(Indices(n));
    assert multiset(r) == m;
    assert |r| == n by {
      assert |multiset(r)| == |r| && |m| == n;
    }
    forall x: nat ensures x in r <==> x < n {
      assert x in r <==> x in m;
      if x < n {
        assert Indices(n)[x] == x;
      }
    }
    forall i, j | 0 <= i < j < n ensures r[i] != r[j] {
      assert Ahead(keys, r[i], r[j]);
    }
  }

  // ---------------------------------------------------------------------------
  // The first element of a stable sort

  /** The position of the first greatest value: what a stable descending sort
      puts first (`OrderByDescending(...).First()`). */
  function FirstMaxIndex(values: seq<int>): (k: nat)
    requires values != []
    ensures k < |values|
    ensures forall j :: 0 <= j < |values| ==> values[j] <= values[k]
    ensures forall j :: 0 <= j < k ==> values[j] < values[k]
  {
    if |values| == 1 then 0
    else
      var k := FirstMaxIndex(values[..|values| - 1]);
      assert forall j :: 0 <= j < |values| - 1 ==> values[..|values| - 1][j] == values[j];
      if values[|values| - 1] > values[k] then |values| - 1 else k
  }

  /** The position of the first least value: what a stable ascending sort puts
      first (`OrderBy(...).First()`). */
  function FirstMinIndex(values: seq<int>): (k: nat)
    requires values != []
    ensures k < |values|
    ensures forall j :: 0 <= j < |values| ==> values[k] <= values[j]
    ensures forall j :: 0 <= j < k ==> values[k] < values[j]
  {
    if |values| == 1 then 0
    else
      var k := FirstMinIndex(values[..|values| - 1]);
      assert forall j :: 0 <= j < |values| - 1 ==> values[..|values| - 1][j] == values[j];
      if values[|values| - 1] < values[k] then |values| - 1 else k
  }

  /** Only one position holds the first least value. */
  lemma FirstMinIndexUnique(values: seq<int>, k: nat)
    requires k < |values|
    requires forall j :: 0 <= j < |values| ==> values[k] <= values[j]
    requires forall j :: 0 <= j < k ==> values[k] < values[j]
    ensures k == FirstMinIndex(values)
  {
    var m := FirstMinIndex(values);
    assert !(m < k) && !(k < m);
  }
}
