/**
 * A stable sort by an integer key, largest key first. It stands for the two
 * orderings the application relies on: the database's `ORDER BY date DESC`
 * (ties kept in insertion order) and Python's `sorted(..., reverse=True)`,
 * which keeps equal elements in their original order.
 */
module Sorting {

  /** `s` is ordered by non-increasing key. */
  predicate SortedDesc<T>(s: seq<T>, key: T -> int) {
    forall i, j :: 0 <= i < j < |s| ==> key(s[i]) >= key(s[j])
  }

  /** `s` is ordered by strictly decreasing key. */
  predicate StrictlyDesc<T>(s: seq<T>, key: T -> int) {
    forall i, j :: 0 <= i < j < |s| ==> key(s[i]) > key(s[j])
  }

  /** No two positions of `s` share a key. */
  predicate DistinctKeys<T>(s: seq<T>, key: T -> int) {
    forall i, j :: 0 <= i < j < |s| ==> key(s[i]) != key(s[j])
  }

  /** The elements of `s` whose key is `k`, in their order in `s`. */
  function WithKey<T>(s: seq<T>, key: T -> int, k: int): seq<T> {
    if s == [] then [] else (if key(s[0]) == k then [s[0]] else []) + WithKey(s[1..], key, k)
  }

  /**
   * Puts `x` in front of the first element whose key is not greater than its
   * own, so that `x` precedes the elements of `s` that share its key.
   */
  function Insert<T>(x: T, s: seq<T>, key: T -> int): (r: seq<T>)
    ensures multiset(r) == multiset(s) + multiset{x}
  {
    if s == [] || key(x) >= key(s[0]) then [x] + s
    else
      assert s == [s[0]] + s[1..];
      [s[0]] + Insert(x, s[1..], key)
  }

  /** The sorted permutation of `s`, largest key first, stable among equal keys. */
  function SortDesc<T>(s: seq<T>, key: T -> int): (r: seq<T>)
    ensures multiset(r) == multiset(s)
    ensures |r| == |s|
    ensures SortedDesc(r, key)
  {
    if s == [] then []
    else
      var t := SortDesc(s[1..], key);
      InsertSorted(s[0], t, key);
      assert s == [s[0]] + s[1..];
      Insert(s[0], t, key)
  }

  /** Elements of a sequence are the elements of its multiset. */
  lemma InMultiset<T>(s: seq<T>, i: int)
    requires 0 <= i < |s|
    ensures s[i] in multiset(s)
  {
  }

  lemma {:induction false} InsertSorted<T>(x: T, s: seq<T>, key: T -> int)
    requires SortedDesc(s, key)
    ensures SortedDesc(Insert(x, s, key), key)
  {
    if s == [] || key(x) >= key(s[0]) {
      var r := [x] + s;
      forall i, j | 0 <= i < j < |r| ensures key(r[i]) >= key(r[j]) {
        if i == 0 {
          assert r[j] == s[j - 1];
          if j > 1 { assert key(s[0]) >= key(s[j - 1]); }
        } else {
          assert r[i] == s[i - 1] && r[j] == s[j - 1];
        }
      }
    } else {
      InsertSorted(x, s[1..], key);
      var t := Insert(x, s[1..], key);
      var r := [s[0]] + t;
      forall j | 0 <= j < |t| ensures key(t[j]) <= key(s[0]) {
        InMultiset(t, j);
        if t[j] != x {
          assert t[j] in multiset(s[1..]);
          var k :| 0 <= k < |s[1..]| && s[1..][k] == t[j];
          assert s[k + 1] == t[j];
        }
      }
      forall i, j | 0 <= i < j < |r| ensures key(r[i]) >= key(r[j]) {
        if i == 0 {
          assert r[j] == t[j - 1];
        } else {
          assert r[i] == t[i - 1] && r[j] == t[j - 1];
        }
      }
    }
  }

  lemma {:induction false} InsertWithKey<T>(x: T, s: seq<T>, key: T -> int, k: int)
    ensures WithKey(Insert(x, s, key), key, k) == (if key(x) == k then [x] else []) + WithKey(s, key, k)
  {
    var mine := if key(x) == k then [x] else [];
    if s == [] || key(x) >= key(s[0]) {
      assert ([x] + s)[1..] == s;
      assert WithKey([x] + s, key, k) == mine + WithKey(s, key, k);
    } else {
      var t := Insert(x, s[1..], key);
      var head := if key(s[0]) == k then [s[0]] else [];
      InsertWithKey(x, s[1..], key, k);
      assert ([s[0]] + t)[1..] == t;
      assert WithKey([s[0]] + t, key, k) == head + WithKey(t, key, k);
      assert WithKey(s, key, k) == head + WithKey(s[1..], key, k);
      assert head == [] || mine == [];
    }
  }

  /**
   * Stability: for every key, the elements carrying it appear in the sorted
   * sequence in the same order as in the input.
   */
  lemma {:induction false} SortStable<T>(s: seq<T>, key: T -> int, k: int)
    ensures WithKey(SortDesc(s, key), key, k) == WithKey(s, key, k)
  {
    if s != [] {
      SortStable(s[1..], key, k);
      InsertWithKey(s[0], SortDesc(s[1..], key), key, k);
    }
  }

  /** Inserting below a bound keeps every key below it. */
  lemma InsertBelow<T>(x: T, s: seq<T>, key: T -> int, b: int)
    requires key(x) < b
    requires forall y | y in s :: key(y) < b
    ensures forall y | y in Insert(x, s, key) :: key(y) < b
  {
    forall y | y in Insert(x, s, key) ensures key(y) < b {
      assert y in multiset(Insert(x, s, key));
    }
  }

  /** A head above every key of a strictly ordered tail keeps the order strict. */
  lemma ConsStrict<T>(h: T, t: seq<T>, key: T -> int)
    requires StrictlyDesc(t, key)
    requires forall y | y in t :: key(y) < key(h)
    ensures StrictlyDesc([h] + t, key)
  {
    var r := [h] + t;
    forall i, j | 0 <= i < j < |r| ensures key(r[i]) > key(r[j]) {
      assert r[j] == t[j - 1];
      if i > 0 { assert r[i] == t[i - 1]; }
    }
  }

  lemma {:induction false} InsertStrict<T>(x: T, s: seq<T>, key: T -> int)
    requires StrictlyDesc(s, key)
    requires forall y | y in s :: key(y) != key(x)
    ensures StrictlyDesc(Insert(x, s, key), key)
  {
    if s == [] || key(x) >= key(s[0]) {
      if s != [] {
        assert s[0] in s;
        forall y | y in s ensures key(y) < key(x) {
          var k :| 0 <= k < |s| && s[k] == y;
          if k > 0 { assert key(s[0]) > key(s[k]); }
        }
      }
      ConsStrict(x, s, key);
    } else {
      var tail := s[1..];
      assert StrictlyDesc(tail, key) by {
        forall i, j | 0 <= i < j < |tail| ensures key(tail[i]) > key(tail[j]) {
          assert tail[i] == s[i + 1] && tail[j] == s[j + 1];
        }
      }
      forall y | y in tail ensures key(y) != key(x) && key(y) < key(s[0]) {
        var k :| 0 <= k < |tail| && tail[k] == y;
        assert s[k + 1] == y;
      }
      InsertStrict(x, tail, key);
      InsertBelow(x, tail, key, key(s[0]));
      ConsStrict(s[0], Insert(x, tail, key), key);
    }
  }

  /** When no two elements share a key, the sorted order is strict. */
  lemma {:induction false} SortStrict<T>(s: seq<T>, key: T -> int)
    requires DistinctKeys(s, key)
    ensures StrictlyDesc(SortDesc(s, key), key)
  {
    if s != [] {
      var tail := s[1..];
      assert DistinctKeys(tail, key) by {
        forall i, j | 0 <= i < j < |tail| ensures key(tail[i]) != key(tail[j]) {
          assert tail[i] == s[i + 1] && tail[j] == s[j + 1];
        }
      }
      SortStrict(tail, key);
      var t := SortDesc(tail, key);
      forall y | y in t ensures key(y) != key(s[0]) {
        assert y in multiset(t);
        assert y in multiset(tail);
        var k :| 0 <= k < |tail| && tail[k] == y;
        assert s[k + 1] == y;
      }
      InsertStrict(s[0], t, key);
    }
  }

  /** Sorting keeps the sum of any per-element quantity. */
  lemma {:induction false} InsertSum<T>(x: T, s: seq<T>, key: T -> int, f: T -> int)
    ensures SumOf(Insert(x, s, key), f) == f(x) + SumOf(s, f)
  {
    if s == [] || key(x) >= key(s[0]) {
      assert ([x] + s)[1..] == s;
    } else {
      InsertSum(x, s[1..], key, f);
      assert ([s[0]] + Insert(x, s[1..], key))[1..] == Insert(x, s[1..], key);
    }
  }

  lemma {:induction false} SortSum<T>(s: seq<T>, key: T -> int, f: T -> int)
    ensures SumOf(SortDesc(s, key), f) == SumOf(s, f)
  {
    if s != [] {
      SortSum(s[1..], key, f);
      InsertSum(s[0], SortDesc(s[1..], key), key, f);
    }
  }

  // ---------------------------------------------------------------------
  // Sums

  /** Python's `sum(f(x) for x in s)`. */
  function SumOf<T>(s: seq<T>, f: T -> int): int {
    if s == [] then 0 else f(s[0]) + SumOf(s[1..], f)
  }

  /** Adding one element at the end adds its quantity: the step of an accumulating loop. */
  lemma {:induction false} SumOfSnoc<T>(s: seq<T>, x: T, f: T -> int)
    ensures SumOf(s + [x], f) == SumOf(s, f) + f(x)
  {
    if s == [] {
      assert [x][1..] == [];
    } else {
      SumOfSnoc(s[1..], x, f);
      assert (s + [x])[1..] == s[1..] + [x];
    }
  }

  /** The first `n` elements, or all of them when there are fewer: Python's `s[:n]`. */
  function Take<T>(s: seq<T>, n: nat): (r: seq<T>)
    ensures |r| == if |s| < n then |s| else n
    ensures r <= s
  {
    if |s| <= n then s else s[..n]
  }
}
