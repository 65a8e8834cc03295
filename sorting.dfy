// The two list idioms the components share: `[...new Set(xs)]` (distinct values in order of
// first appearance) and `Array.prototype.sort` with a consistent numeric-key comparator,
// which JavaScript engines perform stably.

module Sorting {
  import opened Common

  /** `[...new Set(s)]`: each value once, in the order of its first appearance. */
  function Unique<T(==)>(s: seq<T>): (r: seq<T>)
    ensures Distinct(r)
    ensures forall i :: 0 <= i < |s| ==> s[i] in r
    ensures forall i :: 0 <= i < |r| ==> r[i] in s
    ensures forall i, j :: 0 <= i < j < |r| ==> IndexOf(s, r[i]) < IndexOf(s, r[j])
  {
    if s == [] then []
    else
      var init := s[..|s| - 1];
      var u := Unique(init);
      assert forall i :: 0 <= i < |s| - 1 ==> s[i] == init[i];
      var r := if s[|s| - 1] in u then u else u + [s[|s| - 1]];
      UniqueSnocOrder(s, u, r);
      r
  }

  /** Appending the last element, when new, keeps the values in first-appearance order. */
  lemma UniqueSnocOrder<T>(s: seq<T>, u: seq<T>, r: seq<T>)
    requires s != []
    requires forall i :: 0 <= i < |u| ==> u[i] in s[..|s| - 1]
    requires forall i :: 0 <= i < |s| - 1 ==> s[i] in u
    requires forall i, j :: 0 <= i < j < |u| ==> IndexOf(s[..|s| - 1], u[i]) < IndexOf(s[..|s| - 1], u[j])
    requires r == if s[|s| - 1] in u then u else u + [s[|s| - 1]]
    ensures forall i, j :: 0 <= i < j < |r| ==> IndexOf(s, r[i]) < IndexOf(s, r[j])
  {
    var init := s[..|s| - 1];
    forall i | 0 <= i < |u|
      ensures IndexOf(s, u[i]) == IndexOf(init, u[i]) < |s| - 1
    {
      IndexOfSnoc(s, u[i]);
    }
    if s[|s| - 1] !in u {
      assert s[|s| - 1] !in init;
      IndexOfSnoc(s, s[|s| - 1]);
    }
    forall i, j | 0 <= i < j < |r|
      ensures IndexOf(s, r[i]) < IndexOf(s, r[j])
    {
      assert r[i] == u[i];
      if j < |u| {
        assert r[j] == u[j];
      } else {
        assert r[j] == s[|s| - 1] && IndexOf(s, r[j]) == |s| - 1;
      }
    }
  }

  /** Appending to a sequence keeps the first position of a value it already holds, and a new
      value is found at the end. */
  lemma IndexOfSnoc<T>(s: seq<T>, x: T)
    requires s != []
    ensures x in s[..|s| - 1] ==> IndexOf(s, x) == IndexOf(s[..|s| - 1], x)
    ensures x !in s[..|s| - 1] && x == s[|s| - 1] ==> IndexOf(s, x) == |s| - 1
  {
    var init := s[..|s| - 1];
    if x in init {
      var p := IndexOf(init, x);
      assert s[p] == init[p] && s[..p] == init[..p];
    }
  }

  /** `s.indexOf(x)`: the first position of `x`, `-1` when absent. */
  function IndexOf<T(==)>(s: seq<T>, x: T): (r: int)
    ensures -1 <= r < |s|
    ensures r >= 0 ==> s[r] == x && x !in s[..r]
    ensures r == -1 ==> x !in s
  {
    if s == [] then -1
    else if s[0] == x then 0
    else
      var r := IndexOf(s[1..], x);
      assert s == [s[0]] + s[1..];
      if r == -1 then -1
      else
        assert s[..r + 1] == [s[0]] + s[1..][..r];
        r + 1
  }

  /** `s.filter(keep)`: the elements `keep` accepts, in their order. */
  function Filter<T>(s: seq<T>, keep: T -> bool): (r: seq<T>)
    ensures |r| <= |s|
    ensures forall i :: 0 <= i < |r| ==> r[i] in s && keep(r[i])
    ensures forall i :: 0 <= i < |s| && keep(s[i]) ==> s[i] in r
  {
    if s == [] then []
    else
      var rest := Filter(s[1..], keep);
      assert forall i :: 1 <= i < |s| ==> s[i] == s[1..][i - 1];
      (if keep(s[0]) then [s[0]] else []) + rest
  }

  /** The key of a numeric sort, `(a, b) => a - b`. */
  function Identity(x: int): int
  {
    x
  }

  /** Whether `key` never decreases along `s`. */
  predicate SortedBy<T>(s: seq<T>, key: T -> int)
  {
    forall i, j :: 0 <= i < j < |s| ==> key(s[i]) <= key(s[j])
  }

  /** Inserts `x` after every element whose key is not larger: a later element never
      overtakes an earlier one with the same key. */
  function InsertBy<T>(x: T, s: seq<T>, key: T -> int): (r: seq<T>)
    ensures |r| == |s| + 1
  {
    if s == [] || key(x) < key(s[0]) then [x] + s else [s[0]] + InsertBy(x, s[1..], key)
  }

  /** Stable insertion sort by `key`: what `s.sort((a, b) => key(a) - key(b))` leaves. */
  function SortBy<T>(s: seq<T>, key: T -> int): (r: seq<T>)
    ensures |r| == |s|
  {
    if s == [] then [] else InsertBy(s[|s| - 1], SortBy(s[..|s| - 1], key), key)
  }

  lemma {:induction false} InsertByKeeps<T>(x: T, s: seq<T>, key: T -> int)
    ensures multiset(InsertBy(x, s, key)) == multiset(s) + multiset{x}
    decreases |s|
  {
    if s != [] && key(x) >= key(s[0]) {
      InsertByKeeps(x, s[1..], key);
      assert s == [s[0]] + s[1..];
    }
  }

  /** Inserting into a sorted list keeps it sorted. */
  lemma {:induction false} InsertBySorted<T>(x: T, s: seq<T>, key: T -> int)
    requires SortedBy(s, key)
    ensures SortedBy(InsertBy(x, s, key), key)
    ensures InsertBy(x, s, key)[0] == x || (s != [] && InsertBy(x, s, key)[0] == s[0])
    decreases |s|
  {
    if s != [] && key(x) >= key(s[0]) {
      var t := InsertBy(x, s[1..], key);
      InsertBySorted(x, s[1..], key);
      assert key(s[0]) <= key(t[0]);
      var r := [s[0]] + t;
      forall i, j | 0 <= i < j < |r|
        ensures key(r[i]) <= key(r[j])
      {
        if i > 0 {
          assert r[i] == t[i - 1] && r[j] == t[j - 1];
        } else {
          assert key(t[0]) <= key(t[j - 1]) || j == 1;
        }
      }
    }
  }

  lemma {:induction false} SortByKeeps<T>(s: seq<T>, key: T -> int)
    ensures multiset(SortBy(s, key)) == multiset(s)
    decreases |s|
  {
    if s != [] {
      var init := s[..|s| - 1];
      SortByKeeps(init, key);
      InsertByKeeps(s[|s| - 1], SortBy(init, key), key);
      assert s == init + [s[|s| - 1]];
    }
  }

  lemma {:induction false} SortBySorted<T>(s: seq<T>, key: T -> int)
    ensures SortedBy(SortBy(s, key), key)
    decreases |s|
  {
    if s != [] {
      SortBySorted(s[..|s| - 1], key);
      InsertBySorted(s[|s| - 1], SortBy(s[..|s| - 1], key), key);
    }
  }

  /** The sorted list is a permutation of the input, in key order. */
  lemma SortByCorrect<T>(s: seq<T>, key: T -> int)
    ensures multiset(SortBy(s, key)) == multiset(s)
    ensures SortedBy(SortBy(s, key), key)
  {
    SortByKeeps(s, key);
    SortBySorted(s, key);
  }

  /** Sorting distinct values keeps them distinct. */
  lemma SortByDistinct<T>(s: seq<T>, key: T -> int)
    requires Distinct(s)
    ensures Distinct(SortBy(s, key))
  {
    SortByCorrect(s, key);
    var r := SortBy(s, key);
    forall i, j | 0 <= i < j < |r|
      ensures r[i] != r[j]
    {
      if r[i] == r[j] {
        assert multiset(r)[r[i]] >= 2 by {
          assert r == r[..j] + r[j..];
          assert r[i] in multiset(r[..j]) && r[j] in multiset(r[j..]);
        }
        DistinctOnce(s, r[i]);
        assert false;
      }
    }
  }

  /** `[...new Set(s)].sort(byKey)`: every value of `s` once, in key order. */
  lemma UniqueSorted<T>(s: seq<T>, key: T -> int, x: T)
    ensures x in SortBy(Unique(s), key) <==> x in s
    ensures Distinct(SortBy(Unique(s), key))
    ensures SortedBy(SortBy(Unique(s), key), key)
  {
    var u := Unique(s);
    var r := SortBy(u, key);
    SortByCorrect(u, key);
    SortByDistinct(u, key);
    assert x in r <==> x in multiset(r);
    assert x in u <==> x in multiset(u);
    if x in s {
      var i :| 0 <= i < |s| && s[i] == x;
      assert s[i] in u;
    }
    if x in u {
      var i :| 0 <= i < |u| && u[i] == x;
      assert u[i] in s;
    }
  }

  /** A filter that keeps everything is the identity. */
  lemma {:induction false} FilterAll<T>(s: seq<T>, keep: T -> bool)
    requires forall i :: 0 <= i < |s| ==> keep(s[i])
    ensures Filter(s, keep) == s
    decreases |s|
  {
    if s != [] {
      FilterAll(s[1..], keep);
      assert s == [s[0]] + s[1..];
    }
  }

  /** The filter's first element is the first element it accepts. */
  lemma {:induction false} FilterHead<T>(rows: seq<T>, k: nat, keep: T -> bool)
    requires k < |rows| && keep(rows[k])
    requires forall j :: 0 <= j < k ==> !keep(rows[j])
    ensures Filter(rows, keep) != [] && Filter(rows, keep)[0] == rows[k]
    decreases k
  {
    if k > 0 {
      FilterHead(rows[1..], k - 1, keep);
    }
  }

  /** A non-empty filter starts with the first element it accepts. */
  lemma {:induction false} FilterFirst<T>(s: seq<T>, keep: T -> bool)
    requires Filter(s, keep) != []
    ensures exists k :: 0 <= k < |s| && s[k] == Filter(s, keep)[0] && keep(s[k])
                        && forall j :: 0 <= j < k ==> !keep(s[j])
  {
    if keep(s[0]) {
      assert s[0] == Filter(s, keep)[0];
    } else {
      assert Filter(s, keep) == Filter(s[1..], keep);
      FilterFirst(s[1..], keep);
      var k :| 0 <= k < |s[1..]| && s[1..][k] == Filter(s[1..], keep)[0] && keep(s[1..][k])
               && forall j :: 0 <= j < k ==> !keep(s[1..][j]);
      assert s[k + 1] == s[1..][k];
      forall j | 0 <= j < k + 1
        ensures !keep(s[j])
      {
        if j > 0 {
          assert s[j] == s[1..][j - 1];
        }
      }
    }
  }

  /** What the filter keeps: the elements of `s` that `keep` accepts. */
  lemma FilterHas<T>(s: seq<T>, keep: T -> bool, x: T)
    ensures x in Filter(s, keep) <==> x in s && keep(x)
  {
    var r := Filter(s, keep);
    if x in r {
      var i :| 0 <= i < |r| && r[i] == x;
    }
    if x in s {
      var i :| 0 <= i < |s| && s[i] == x;
    }
  }

  /** `xs.forEach(x => out.push(...f(x)))`: the pieces of every element, in order. */
  function FlatMap<T, U>(xs: seq<T>, f: T -> seq<U>): seq<U>
  {
    if xs == [] then [] else FlatMap(xs[..|xs| - 1], f) + f(xs[|xs| - 1])
  }

  lemma FlatMapSnoc<T, U>(xs: seq<T>, f: T -> seq<U>, k: nat)
    requires k < |xs|
    ensures FlatMap(xs[..k + 1], f) == FlatMap(xs[..k], f) + f(xs[k])
  {
    assert xs[..k + 1][..k] == xs[..k];
  }

  /** An element of the result comes from the piece of some element, and back. */
  lemma {:induction false} FlatMapHas<T, U>(xs: seq<T>, f: T -> seq<U>, y: U)
    ensures y in FlatMap(xs, f) <==> exists k :: 0 <= k < |xs| && y in f(xs[k])
    decreases |xs|
  {
    if xs != [] {
      var init := xs[..|xs| - 1];
      FlatMapHas(init, f, y);
      if exists k :: 0 <= k < |xs| && y in f(xs[k]) {
        var k :| 0 <= k < |xs| && y in f(xs[k]);
        if k < |init| {
          assert init[k] == xs[k];
        }
      }
      if exists k :: 0 <= k < |init| && y in f(init[k]) {
        var k :| 0 <= k < |init| && y in f(init[k]);
        assert xs[k] == init[k];
      }
    }
  }

  /** The position of the piece an element of the result comes from. */
  lemma FlatMapSource<T, U>(xs: seq<T>, f: T -> seq<U>, y: U) returns (k: nat)
    requires y in FlatMap(xs, f)
    ensures k < |xs| && y in f(xs[k])
  {
    FlatMapHas(xs, f, y);
    k :| k < |xs| && y in f(xs[k]);
  }

  /** The first element of the sorted copy has the least key. */
  lemma SortByFirstLeast<T>(s: seq<T>, key: T -> int, j: nat)
    requires j < |s|
    ensures key(SortBy(s, key)[0]) <= key(s[j])
  {
    SortByCorrect(s, key);
    var r := SortBy(s, key);
    assert s[j] in multiset(r);
    var t :| 0 <= t < |r| && r[t] == s[j];
    if t > 0 {
      assert key(r[0]) <= key(r[t]);
    }
  }

  /** Whether an element is in the sorted copy follows from the permutation. */
  lemma SortByHas<T>(s: seq<T>, key: T -> int, i: nat)
    requires i < |s|
    ensures SortBy(s, key)[i] in s
  {
    SortByCorrect(s, key);
    var r := SortBy(s, key);
    assert r[i] in multiset(r);
  }

  lemma {:induction false} DistinctOnce<T>(s: seq<T>, x: T)
    requires Distinct(s)
    ensures multiset(s)[x] <= 1
    decreases |s|
  {
    if s != [] {
      assert s == [s[0]] + s[1..];
      DistinctOnce(s[1..], x);
      if s[0] == x {
        assert x !in s[1..];
      }
    }
  }
}
