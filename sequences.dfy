/** The two `java.util` list operations the store uses on its lists:
    `removeIf` and the stable `List.sort` / `Stream.sorted` with a key
    comparator, plus the "no two elements share a key" invariant. */
module Sequences {

  /** `list.removeIf(p)`: the elements not satisfying `p`, in their order. */
  function RemoveWhere<T>(s: seq<T>, p: T -> bool): (r: seq<T>)
    ensures |r| <= |s|
    ensures forall i :: 0 <= i < |r| ==> r[i] in s && !p(r[i])
    ensures forall i :: 0 <= i < |s| && !p(s[i]) ==> s[i] in r
  {
    if s == [] then []
    else if p(s[0]) then RemoveWhere(s[1..], p)
    else [s[0]] + RemoveWhere(s[1..], p)
  }

  /** A loop writing one line per element, `for (T x : xs) lines.add(f(x))`. */
  method MapLines<T>(xs: seq<T>, f: T -> string) returns (lines: seq<string>)
    ensures |lines| == |xs|
    ensures forall i :: 0 <= i < |xs| ==> lines[i] == f(xs[i])
  {
    lines := [];
    var i := 0;
    while i < |xs|
      invariant 0 <= i <= |xs| && |lines| == i
      invariant forall k :: 0 <= k < i ==> lines[k] == f(xs[k])
    {
      lines := lines + [f(xs[i])];
      i := i + 1;
    }
  }

  /** Removal works piecewise, so the survivors keep their relative order. */
  lemma {:induction false} RemoveWhereAppend<T>(a: seq<T>, b: seq<T>, p: T -> bool)
    ensures RemoveWhere(a + b, p) == RemoveWhere(a, p) + RemoveWhere(b, p)
  {
    if a != [] {
      assert (a + b)[1..] == a[1..] + b;
      RemoveWhereAppend(a[1..], b, p);
    } else {
      assert a + b == b;
    }
  }

  /** When nothing satisfies `p`, nothing is removed. */
  lemma {:induction false} RemoveWhereNothing<T>(s: seq<T>, p: T -> bool)
    requires forall i :: 0 <= i < |s| ==> !p(s[i])
    ensures RemoveWhere(s, p) == s
  {
    if s != [] {
      RemoveWhereNothing(s[1..], p);
    }
  }

  /** Each value survives as often as it occurred, or not at all. */
  lemma {:induction false} RemoveWhereCount<T>(s: seq<T>, p: T -> bool, x: T)
    ensures multiset(RemoveWhere(s, p))[x] == if p(x) then 0 else multiset(s)[x]
  {
    if s != [] {
      RemoveWhereCount(s[1..], p, x);
      assert s == [s[0]] + s[1..];
    }
  }

  /** No two elements of `s` have the same key. */
  ghost predicate DistinctKeys<T, K>(s: seq<T>, key: T -> K) {
    forall i, j :: 0 <= i < j < |s| ==> key(s[i]) != key(s[j])
  }

  /** Removing elements cannot make two keys equal. */
  lemma {:induction false} RemoveWhereDistinct<T, K>(s: seq<T>, p: T -> bool, key: T -> K)
    requires DistinctKeys(s, key)
    ensures DistinctKeys(RemoveWhere(s, p), key)
  {
    if s != [] {
      RemoveWhereDistinct(s[1..], p, key);
      var rest := RemoveWhere(s[1..], p);
      if !p(s[0]) {
        forall j | 0 <= j < |rest| ensures key(s[0]) != key(rest[j]) {
          assert rest[j] in s[1..];
          var k :| 0 <= k < |s[1..]| && s[1..][k] == rest[j];
          assert s[k + 1] == rest[j];
        }
      }
    }
  }

  /** Appending an element whose key is new keeps the keys distinct. */
  lemma AppendDistinct<T, K>(s: seq<T>, x: T, key: T -> K)
    requires DistinctKeys(s, key)
    requires forall i :: 0 <= i < |s| ==> key(s[i]) != key(x)
    ensures DistinctKeys(s + [x], key)
  {
  }

  ghost predicate SortedBy<T>(s: seq<T>, key: T -> int) {
    forall i, j :: 0 <= i < j < |s| ==> key(s[i]) <= key(s[j])
  }

  /** Inserts `x` before the first element whose key is not smaller, so `x`
      lands ahead of the elements with an equal key. */
  function Insert<T>(x: T, s: seq<T>, key: T -> int): (r: seq<T>)
    ensures |r| == |s| + 1
    ensures multiset(r) == multiset(s) + multiset{x}
  {
    if s == [] || key(x) <= key(s[0]) then [x] + s
    else
      assert s == [s[0]] + s[1..];
      [s[0]] + Insert(x, s[1..], key)
  }

  /** Insertion sort: each element is inserted, from the back, in front of
      the later elements with an equal key, making the sort stable as
      `List.sort` is. */
  function SortBy<T>(s: seq<T>, key: T -> int): (r: seq<T>)
    ensures multiset(r) == multiset(s)
    ensures |r| == |s|
  {
    if s == [] then []
    else
      assert s == [s[0]] + s[1..];
      Insert(s[0], SortBy(s[1..], key), key)
  }

  /** Sorting a list that is already in order leaves it as it is. */
  lemma {:induction false} SortByOfSorted<T>(s: seq<T>, key: T -> int)
    requires SortedBy(s, key)
    ensures SortBy(s, key) == s
  {
    if s != [] {
      assert SortedBy(s[1..], key) by {
        forall i, j | 0 <= i < j < |s[1..]| ensures key(s[1..][i]) <= key(s[1..][j]) {
          assert s[1..][i] == s[i + 1] && s[1..][j] == s[j + 1];
        }
      }
      SortByOfSorted(s[1..], key);
      assert s == [s[0]] + s[1..];
    }
  }

  /** Removing elements keeps the order of what is left. */
  lemma {:induction false} RemoveWhereSorted<T>(s: seq<T>, p: T -> bool, key: T -> int)
    requires SortedBy(s, key)
    ensures SortedBy(RemoveWhere(s, p), key)
  {
    if s != [] {
      var t := s[1..];
      assert SortedBy(t, key) by {
        forall i, j | 0 <= i < j < |t| ensures key(t[i]) <= key(t[j]) {
          assert t[i] == s[i + 1] && t[j] == s[j + 1];
        }
      }
      RemoveWhereSorted(t, p, key);
      if !p(s[0]) {
        var r := RemoveWhere(t, p);
        forall j | 0 <= j < |r| ensures key(s[0]) <= key(r[j]) {
          var m :| 0 <= m < |t| && t[m] == r[j];
          assert t[m] == s[m + 1];
        }
        SortedCons(s[0], r, key);
      }
    }
  }

  lemma SortedCons<T>(x: T, r: seq<T>, key: T -> int)
    requires SortedBy(r, key)
    requires forall j :: 0 <= j < |r| ==> key(x) <= key(r[j])
    ensures SortedBy([x] + r, key)
  {
    var s := [x] + r;
    forall i, j | 0 <= i < j < |s| ensures key(s[i]) <= key(s[j]) {
      assert s[j] == r[j - 1];
      if i > 0 { assert s[i] == r[i - 1]; }
    }
  }

  lemma {:induction false} InsertSorted<T>(x: T, s: seq<T>, key: T -> int)
    requires SortedBy(s, key)
    ensures SortedBy(Insert(x, s, key), key)
  {
    if s != [] && key(x) > key(s[0]) {
      InsertSorted(x, s[1..], key);
      var r := Insert(x, s[1..], key);
      forall j | 0 <= j < |r| ensures key(s[0]) <= key(r[j]) {
        assert r[j] in multiset(r);
        if r[j] != x {
          assert r[j] in multiset(s[1..]);
          assert r[j] in s[1..];
        }
      }
    }
  }

  /** The sorted list is in ascending key order. */
  lemma {:induction false} SortBySorted<T>(s: seq<T>, key: T -> int)
    ensures SortedBy(SortBy(s, key), key)
  {
    if s != [] {
      SortBySorted(s[1..], key);
      InsertSorted(s[0], SortBy(s[1..], key), key);
    }
  }

  /** The elements of `s` whose key is `k`, in order. */
  function WithKey<T>(s: seq<T>, key: T -> int, k: int): (r: seq<T>)
    ensures forall i :: 0 <= i < |r| ==> key(r[i]) == k
  {
    if s == [] then []
    else if key(s[0]) == k then [s[0]] + WithKey(s[1..], key, k)
    else WithKey(s[1..], key, k)
  }

  lemma {:induction false} InsertWithKey<T>(x: T, s: seq<T>, key: T -> int, k: int)
    requires SortedBy(s, key)
    ensures WithKey(Insert(x, s, key), key, k)
         == if key(x) == k then [x] + WithKey(s, key, k) else WithKey(s, key, k)
  {
    if s != [] && key(x) > key(s[0]) {
      InsertWithKey(x, s[1..], key, k);
    }
  }

  /** Stability: the elements sharing a key keep their original relative
      order. Together with SortBySorted and the multiset ensures, this pins
      the result down completely. */
  lemma {:induction false} SortByStable<T>(s: seq<T>, key: T -> int, k: int)
    ensures WithKey(SortBy(s, key), key, k) == WithKey(s, key, k)
  {
    if s != [] {
      SortByStable(s[1..], key, k);
      SortBySorted(s[1..], key);
      InsertWithKey(s[0], SortBy(s[1..], key), key, k);
    }
  }

  lemma {:induction false} InsertDistinct<T, K>(x: T, s: seq<T>, key: T -> int, other: T -> K)
    requires DistinctKeys(s, other)
    requires forall i :: 0 <= i < |s| ==> other(s[i]) != other(x)
    ensures DistinctKeys(Insert(x, s, key), other)
  {
    if s != [] && key(x) > key(s[0]) {
      InsertDistinct(x, s[1..], key, other);
      var r := Insert(x, s[1..], key);
      forall j | 0 <= j < |r| ensures other(s[0]) != other(r[j]) {
        assert r[j] in multiset(r);
        if r[j] != x {
          assert r[j] in multiset(s[1..]);
          var m :| 0 <= m < |s[1..]| && s[1..][m] == r[j];
          assert s[m + 1] == r[j];
        }
      }
    }
  }

  /** Sorting is a permutation, so keys that were distinct stay distinct
      (for any key, not only the one sorted by). */
  lemma {:induction false} SortByDistinct<T, K>(s: seq<T>, key: T -> int, other: T -> K)
    requires DistinctKeys(s, other)
    ensures DistinctKeys(SortBy(s, key), other)
  {
    if s != [] {
      SortByDistinct(s[1..], key, other);
      var sorted := SortBy(s[1..], key);
      forall i | 0 <= i < |sorted| ensures other(sorted[i]) != other(s[0]) {
        assert sorted[i] in multiset(s[1..]);
        var m :| 0 <= m < |s[1..]| && s[1..][m] == sorted[i];
        assert s[m + 1] == sorted[i];
      }
      InsertDistinct(s[0], sorted, key, other);
    }
  }
}
