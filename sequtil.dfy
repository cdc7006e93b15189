/**
 * The sequence operations that stand for SQL clauses in the audit queries:
 * `WHERE` is a filter and `ORDER BY … DESC` a stable insertion sort on an
 * integer key.
 */
module SeqUtil {

  /** `WHERE p`: the elements satisfying p, in their original order. */
  function Filter<T(!new)>(s: seq<T>, p: T -> bool): (r: seq<T>)
    ensures |r| <= |s|
    ensures forall x :: x in r <==> x in s && p(x)
    ensures forall i :: 0 <= i < |r| ==> p(r[i])
  {
    if s == [] then []
    else
      var rest := Filter(s[1..], p);
      assert s == [s[0]] + s[1..];
      if p(s[0]) then [s[0]] + rest else rest
  }

  ghost predicate SortedDesc<T>(s: seq<T>, key: T -> int)
  {
    forall i, j :: 0 <= i < j < |s| ==> key(s[i]) >= key(s[j])
  }

  function InsertDesc<T(!new)>(x: T, s: seq<T>, key: T -> int): (r: seq<T>)
    ensures |r| == |s| + 1
    ensures multiset(r) == multiset(s) + multiset{x}
    ensures forall y :: y in r <==> y == x || y in s
    ensures SortedDesc(s, key) ==> SortedDesc(r, key)
    ensures r[0] == x || (s != [] && r[0] == s[0])
  {
    if s == [] || key(s[0]) <= key(x) then
      ConsSorted(x, s, key);
      [x] + s
    else
      var rest := InsertDesc(x, s[1..], key);
      assert s == [s[0]] + s[1..];
      ConsSorted(s[0], rest, key);
      [s[0]] + rest
  }

  lemma {:induction false} ConsSorted<T>(a: T, s: seq<T>, key: T -> int)
    ensures SortedDesc(s, key) && (s != [] ==> key(a) >= key(s[0])) ==> SortedDesc([a] + s, key)
  {
    if SortedDesc(s, key) && (s != [] ==> key(a) >= key(s[0])) {
      var r := [a] + s;
      forall i, j | 0 <= i < j < |r| ensures key(r[i]) >= key(r[j]) {
        if i == 0 {
          assert r[j] == s[j - 1];
          assert key(s[0]) >= key(s[j - 1]);
        } else {
          assert r[i] == s[i - 1] && r[j] == s[j - 1];
        }
      }
    }
  }

  /** `ORDER BY key DESC`, ties kept in input order. */
  function SortDesc<T(!new)>(s: seq<T>, key: T -> int): (r: seq<T>)
    ensures |r| == |s|
    ensures multiset(r) == multiset(s)
    ensures forall y :: y in r <==> y in s
    ensures SortedDesc(r, key)
  {
    if s == [] then []
    else
      assert s == [s[0]] + s[1..];
      InsertDesc(s[0], SortDesc(s[1..], key), key)
  }

  /** In a descending list, anything with a larger key than position k-1 lies before k. */
  lemma {:induction false} TopOfSorted<T>(s: seq<T>, key: T -> int, k: nat, x: T)
    requires SortedDesc(s, key) && 0 < k <= |s|
    requires x in s && key(x) > key(s[k - 1])
    ensures x in s[..k]
  {
    var j :| 0 <= j < |s| && s[j] == x;
    if j >= k {
      assert false;
    }
    assert s[..k][j] == x;
  }

  ghost predicate DistinctKeys<T, K>(s: seq<T>, key: T -> K)
  {
    forall a, b :: 0 <= a < b < |s| ==> key(s[a]) != key(s[b])
  }

  lemma {:induction false} MultiplicityOfTwo<T>(s: seq<T>, i: nat, j: nat)
    requires 0 <= i < j < |s| && s[i] == s[j]
    ensures multiset(s)[s[i]] >= 2
  {
    assert s == s[..i] + [s[i]] + s[i + 1..j] + [s[j]] + s[j + 1..];
  }

  lemma {:induction false} DistinctMultiplicity<T, K>(s: seq<T>, key: T -> K, x: T)
    requires DistinctKeys(s, key)
    ensures multiset(s)[x] <= 1
    decreases |s|
  {
    if s != [] {
      var rest := s[1..];
      assert s == [s[0]] + rest;
      assert DistinctKeys(rest, key);
      DistinctMultiplicity(rest, key, x);
      if s[0] == x && x in rest {
        assert false;
      }
    }
  }

  /** Reordering keeps keys pairwise distinct. */
  lemma {:induction false} DistinctUnderPermutation<T, K>(s: seq<T>, r: seq<T>, key: T -> K)
    requires multiset(r) == multiset(s) && DistinctKeys(s, key)
    ensures DistinctKeys(r, key)
  {
    forall a, b | 0 <= a < b < |r| ensures key(r[a]) != key(r[b]) {
      if key(r[a]) == key(r[b]) {
        assert r[a] in multiset(s) && r[b] in multiset(s);
        var p :| 0 <= p < |s| && s[p] == r[a];
        var q :| 0 <= q < |s| && s[q] == r[b];
        assert p == q;
        MultiplicityOfTwo(r, a, b);
        DistinctMultiplicity(s, key, r[a]);
        assert false;
      }
    }
  }

  lemma {:induction false} HeadKeyUnique<T(!new), K>(s: seq<T>, p: T -> bool, key: T -> K, y: T)
    requires s != [] && DistinctKeys(s, key)
    requires y in Filter(s[1..], p)
    ensures key(y) != key(s[0])
  {
    assert y in s[1..];
    var k :| 0 <= k < |s[1..]| && s[1..][k] == y;
    assert s[k + 1] == y;
  }

  lemma {:induction false} ConsDistinct<T, K>(x: T, rest: seq<T>, key: T -> K)
    requires DistinctKeys(rest, key)
    requires forall y :: y in rest ==> key(y) != key(x)
    ensures DistinctKeys([x] + rest, key)
  {
    var r := [x] + rest;
    forall a, b | 0 <= a < b < |r| ensures key(r[a]) != key(r[b]) {
      assert r[b] == rest[b - 1];
      if a > 0 {
        assert r[a] == rest[a - 1];
      }
    }
  }

  lemma {:induction false} FilterKeepsDistinct<T(!new), K>(s: seq<T>, p: T -> bool, key: T -> K)
    requires DistinctKeys(s, key)
    ensures DistinctKeys(Filter(s, p), key)
    decreases |s|
  {
    if s != [] {
      assert DistinctKeys(s[1..], key);
      FilterKeepsDistinct(s[1..], p, key);
      var rest := Filter(s[1..], p);
      if p(s[0]) {
        assert Filter(s, p) == [s[0]] + rest;
        forall y | y in rest ensures key(y) != key(s[0]) {
          HeadKeyUnique(s, p, key, y);
        }
        ConsDistinct(s[0], rest, key);
      } else {
        assert Filter(s, p) == rest;
      }
    }
  }
}
