/**
 * Running totals per key, kept as a sequence of `(key, total)` pairs in the
 * order the keys were first inserted. This is how the application's Python
 * dictionaries `category_totals` and `timeline_totals` behave: the statement
 * `totals[k] = totals.get(k, 0) + a` either adds to an existing entry or
 * appends a new one at the end.
 */
module Grouping {
  import opened Sorting

  /** The keys of a totals table, in table order (`list(totals.keys())`). */
  function Keys<K>(t: seq<(K, int)>): (ks: seq<K>)
    ensures |ks| == |t|
    ensures forall i :: 0 <= i < |t| ==> ks[i] == t[i].0
  {
    seq(|t|, i requires 0 <= i < |t| => t[i].0)
  }

  /** The totals of a table, in table order (`list(totals.values())`). */
  function Values<K>(t: seq<(K, int)>): (vs: seq<int>)
    ensures |vs| == |t|
    ensures forall i :: 0 <= i < |t| ==> vs[i] == t[i].1
  {
    seq(|t|, i requires 0 <= i < |t| => t[i].1)
  }

  function Total<K>(p: (K, int)): int {
    p.1
  }

  /** Sum of the totals in a table (`sum(totals.values())`). */
  function SumValues<K>(t: seq<(K, int)>): int {
    SumOf(t, Total)
  }

  /** No key occurs twice. */
  predicate NoDup<K(==)>(ks: seq<K>) {
    forall i, j :: 0 <= i < j < |ks| ==> ks[i] != ks[j]
  }

  /** `totals.get(k, 0)`. */
  function Get<K(==)>(t: seq<(K, int)>, k: K): (v: int)
    ensures k !in Keys(t) ==> v == 0
    ensures k in Keys(t) ==> exists i :: 0 <= i < |t| && t[i].0 == k && v == t[i].1
  {
    if t == [] then 0
    else
      assert forall j :: 0 < j < |t| ==> Keys(t[1..])[j - 1] == t[j].0;
      if t[0].0 == k then t[0].1
      else
        var v := Get(t[1..], k);
        assert k in Keys(t[1..]) ==> exists i :: 0 <= i < |t| && t[i].0 == k && v == t[i].1 by {
          if k in Keys(t[1..]) {
            var j :| 0 <= j < |t[1..]| && t[1..][j].0 == k && v == t[1..][j].1;
            assert t[j + 1] == t[1..][j];
          }
        }
        v
  }

  /** `totals[k] = totals.get(k, 0) + a`. */
  function AddTo<K(==)>(t: seq<(K, int)>, k: K, a: int): seq<(K, int)> {
    if t == [] then [(k, a)]
    else if t[0].0 == k then [(k, t[0].1 + a)] + t[1..]
    else [t[0]] + AddTo(t[1..], k, a)
  }

  /** Adding to a key keeps the table's keys, or appends the key when it is new. */
  lemma {:induction false} AddToKeys<K>(t: seq<(K, int)>, k: K, a: int)
    ensures Keys(AddTo(t, k, a)) == if k in Keys(t) then Keys(t) else Keys(t) + [k]
  {
    if t == [] {
      assert Keys(AddTo(t, k, a)) == [k];
    } else {
      var r := AddTo(t, k, a);
      var kt, kr := Keys(t), Keys(r);
      assert kt[0] == t[0].0;
      if t[0].0 == k {
        assert k in kt;
        assert |kr| == |kt|;
        forall i | 0 <= i < |kt| ensures kr[i] == kt[i] {
          if i > 0 { assert r[i] == t[i]; }
        }
      } else {
        var rest := AddTo(t[1..], k, a);
        AddToKeys(t[1..], k, a);
        assert r == [t[0]] + rest;
        assert kt == [t[0].0] + Keys(t[1..]);
        assert kr == [t[0].0] + Keys(rest);
        assert k in kt <==> k in Keys(t[1..]);
      }
    }
  }

  /** Adding `a` to one entry raises the sum of the table by `a`. */
  lemma {:induction false} AddToSum<K>(t: seq<(K, int)>, k: K, a: int)
    ensures SumValues(AddTo(t, k, a)) == SumValues(t) + a
  {
    var r := AddTo(t, k, a);
    if t == [] {
      assert SumOf(r, Total) == Total(r[0]) + SumOf(r[1..], Total);
      assert r[1..] == [];
    } else {
      assert SumOf(r, Total) == Total(r[0]) + SumOf(r[1..], Total);
      assert SumOf(t, Total) == Total(t[0]) + SumOf(t[1..], Total);
      if t[0].0 == k {
        assert r[1..] == t[1..];
      } else {
        assert r[1..] == AddTo(t[1..], k, a);
        AddToSum(t[1..], k, a);
      }
    }
  }

  /** Adding `a` under `k` changes the looked-up total of `k` by `a` and of no other key. */
  lemma {:induction false} AddToGet<K>(t: seq<(K, int)>, k: K, a: int, k': K)
    ensures Get(AddTo(t, k, a), k') == Get(t, k') + (if k' == k then a else 0)
  {
    if t != [] {
      var r := AddTo(t, k, a);
      assert r[1..] == if t[0].0 == k then t[1..] else AddTo(t[1..], k, a);
      if t[0].0 != k {
        AddToGet(t[1..], k, a, k');
      }
    }
  }

  /** The keys of `s` under `key`, each once, in the order of their first occurrence. */
  function FirstSeen<T, K(==,!new)>(s: seq<T>, key: T -> K): (ks: seq<K>)
    ensures NoDup(ks)
    ensures forall k :: k in ks <==> exists i :: 0 <= i < |s| && key(s[i]) == k
  {
    if s == [] then []
    else
      var init := s[..|s| - 1];
      var ks0 := FirstSeen(init, key);
      var k := key(s[|s| - 1]);
      assert s == init + [s[|s| - 1]];
      if k in ks0 then ks0 else ks0 + [k]
  }

  /** Reference definition: the sum of `amt` over the elements of `s` whose key is `k`. */
  function KeyTotal<T, K(==)>(s: seq<T>, key: T -> K, amt: T -> int, k: K): int {
    if s == [] then 0
    else KeyTotal(s[..|s| - 1], key, amt, k) + (if key(s[|s| - 1]) == k then amt(s[|s| - 1]) else 0)
  }

  /**
   * The table built by a loop that, for each element in turn, adds its amount
   * to the entry of its key: one entry per distinct key in first-seen order,
   * each holding the total of that key, all of them summing to the grand total.
   */
  function Tally<T, K(==,!new)>(s: seq<T>, key: T -> K, amt: T -> int): (t: seq<(K, int)>)
    ensures Keys(t) == FirstSeen(s, key)
    ensures NoDup(Keys(t))
    ensures SumValues(t) == SumOf(s, amt)
    ensures forall k :: Get(t, k) == KeyTotal(s, key, amt, k)
  {
    if s == [] then []
    else
      var init := s[..|s| - 1];
      var x := s[|s| - 1];
      assert s == init + [x];
      SumOfSnoc(init, x, amt);
      var t0 := Tally(init, key, amt);
      AddToKeys(t0, key(x), amt(x));
      AddToSum(t0, key(x), amt(x));
      forall k ensures Get(AddTo(t0, key(x), amt(x)), k) == KeyTotal(s, key, amt, k) {
        AddToGet(t0, key(x), amt(x), k);
      }
      AddTo(t0, key(x), amt(x))
  }

  /** On a table without repeated keys, the entry for each of its keys holds `Get`. */
  lemma {:induction false} GetAt<K>(t: seq<(K, int)>, i: int)
    requires NoDup(Keys(t))
    requires 0 <= i < |t|
    ensures Get(t, t[i].0) == t[i].1
  {
    if i > 0 {
      assert Keys(t[1..]) == Keys(t)[1..];
      assert t[0].0 != t[i].0 by { assert Keys(t)[0] != Keys(t)[i]; }
      GetAt(t[1..], i - 1);
    }
  }

  /**
   * Each entry of a tally holds the total of its key: the value of `k` in the
   * table is the sum of the amounts of the elements whose key is `k`.
   */
  lemma TallyEntry<T, K(!new)>(s: seq<T>, key: T -> K, amt: T -> int, i: int)
    requires 0 <= i < |Tally(s, key, amt)|
    ensures Tally(s, key, amt)[i].1 == KeyTotal(s, key, amt, Tally(s, key, amt)[i].0)
  {
    GetAt(Tally(s, key, amt), i);
  }

  /** An element occurring at two positions occurs at least twice in the multiset. */
  lemma TwoPositions<T>(s: seq<T>, i: int, j: int)
    requires 0 <= i < j < |s| && s[i] == s[j]
    ensures multiset(s)[s[i]] >= 2
  {
    assert s == s[..j] + [s[j]] + s[j + 1..];
    assert s[i] in s[..j];
    assert multiset(s[..j])[s[i]] >= 1;
  }

  /** In a table without repeated keys, no entry occurs twice. */
  lemma {:induction false} NoDupKeysCount<K>(t: seq<(K, int)>, p: (K, int))
    requires NoDup(Keys(t))
    ensures multiset(t)[p] <= 1
  {
    if t != [] {
      assert t == [t[0]] + t[1..];
      assert NoDup(Keys(t[1..])) by {
        forall i, j | 0 <= i < j < |t[1..]| ensures Keys(t[1..])[i] != Keys(t[1..])[j] {
          assert Keys(t)[i + 1] != Keys(t)[j + 1];
        }
      }
      NoDupKeysCount(t[1..], p);
      if t[0] == p {
        assert p !in t[1..] by {
          forall i | 0 <= i < |t[1..]| ensures t[1..][i] != p {
            assert Keys(t)[0] != Keys(t)[i + 1];
          }
        }
      }
    }
  }

  /** Reordering a table without repeated keys yields a table without repeated keys. */
  lemma PermutationKeepsNoDup<K>(t: seq<(K, int)>, r: seq<(K, int)>)
    requires NoDup(Keys(t))
    requires multiset(r) == multiset(t)
    ensures NoDup(Keys(r))
  {
    forall i, j | 0 <= i < j < |r| ensures Keys(r)[i] != Keys(r)[j] {
      if r[i] == r[j] {
        TwoPositions(r, i, j);
        NoDupKeysCount(t, r[i]);
      } else {
        var a := PermutedEntry(t, r, i);
        var b := PermutedEntry(t, r, j);
        if a < b { assert Keys(t)[a] != Keys(t)[b]; } else { assert Keys(t)[b] != Keys(t)[a]; }
      }
    }
  }

  /** Each entry of a reordered table is an entry of the original; the index where it was. */
  lemma PermutedEntry<K>(t: seq<(K, int)>, r: seq<(K, int)>, i: int) returns (j: int)
    requires multiset(r) == multiset(t)
    requires 0 <= i < |r|
    ensures 0 <= j < |t| && t[j] == r[i]
  {
    assert r[i] in multiset(r);
    j :| 0 <= j < |t| && t[j] == r[i];
  }

  /** A reordered table has the same keys. */
  lemma PermutedKeys<K>(t: seq<(K, int)>, r: seq<(K, int)>)
    requires multiset(r) == multiset(t)
    ensures forall k :: k in Keys(r) <==> k in Keys(t)
  {
    forall k | k in Keys(r) ensures k in Keys(t) {
      var i :| 0 <= i < |r| && Keys(r)[i] == k;
      var j := PermutedEntry(t, r, i);
      assert Keys(t)[j] == k;
    }
    forall k | k in Keys(t) ensures k in Keys(r) {
      var i :| 0 <= i < |t| && Keys(t)[i] == k;
      var j := PermutedEntry(r, t, i);
      assert Keys(r)[j] == k;
    }
  }

  /** One more element in a tallying loop: the step from `s[..i]` to `s[..i + 1]`. */
  lemma TallyStep<T, K(!new)>(s: seq<T>, i: int, key: T -> K, amt: T -> int)
    requires 0 <= i < |s|
    ensures Tally(s[..i + 1], key, amt) == AddTo(Tally(s[..i], key, amt), key(s[i]), amt(s[i]))
  {
    assert s[..i + 1][..i] == s[..i];
  }
}
