/**
 * The ordering every list display and the dashboard feed use:
 * `Array.prototype.sort` with the comparator `key(a) - key(b)`. That sort is
 * stable, so its result is determined by the comparator; it is modelled here
 * as a stable insertion sort.
 */
module Sorting {

  ghost predicate SortedBy<T>(s: seq<T>, key: T -> int) {
    forall i, j :: 0 <= i < j < |s| ==> key(s[i]) <= key(s[j])
  }

  /** Places `x` after every element whose key is at most `key(x)`, scanning from the right. */
  function InsertBy<T>(s: seq<T>, x: T, key: T -> int): (r: seq<T>)
    ensures |r| == |s| + 1
    decreases |s|
  {
    if |s| == 0 || key(s[|s| - 1]) <= key(x) then s + [x]
    else InsertBy(s[..|s| - 1], x, key) + [s[|s| - 1]]
  }

  /** Stable sort by `key`: each element is inserted behind the equal-keyed ones before it. */
  function SortBy<T>(s: seq<T>, key: T -> int): (r: seq<T>)
    ensures |r| == |s|
    decreases |s|
  {
    if |s| == 0 then []
    else InsertBy(SortBy(s[..|s| - 1], key), s[|s| - 1], key)
  }

  lemma {:induction false} InsertByPermutes<T>(s: seq<T>, x: T, key: T -> int)
    ensures multiset(InsertBy(s, x, key)) == multiset(s) + multiset{x}
    decreases |s|
  {
    if |s| > 0 && key(s[|s| - 1]) > key(x) {
      InsertByPermutes(s[..|s| - 1], x, key);
      assert s == s[..|s| - 1] + [s[|s| - 1]];
    }
  }

  lemma {:induction false} InsertBySorted<T>(s: seq<T>, x: T, key: T -> int)
    requires SortedBy(s, key)
    ensures SortedBy(InsertBy(s, x, key), key)
    decreases |s|
  {
    if |s| > 0 && key(s[|s| - 1]) > key(x) {
      var init, last := s[..|s| - 1], s[|s| - 1];
      InsertBySorted(init, x, key);
      InsertByPermutes(init, x, key);
      var r := InsertBy(init, x, key);
      forall i | 0 <= i < |r| ensures key(r[i]) <= key(last) {
        assert r[i] in multiset(r);
        if r[i] != x {
          assert r[i] in multiset(init);
          var j :| 0 <= j < |init| && init[j] == r[i];
          assert s[j] == r[i];
        }
      }
    }
  }

  /** The sort returns a permutation of its input. */
  lemma {:induction false} SortByPermutes<T>(s: seq<T>, key: T -> int)
    ensures multiset(SortBy(s, key)) == multiset(s)
    decreases |s|
  {
    if |s| > 0 {
      var init, last := s[..|s| - 1], s[|s| - 1];
      var r := SortBy(init, key);
      assert SortBy(s, key) == InsertBy(r, last, key);
      SortByPermutes(init, key);
      InsertByPermutes(r, last, key);
      assert s == init + [last];
      assert multiset(s) == multiset(init) + multiset{last};
    }
  }

  /** The sort returns a sequence ordered by non-decreasing key. */
  lemma {:induction false} SortBySorted<T>(s: seq<T>, key: T -> int)
    ensures SortedBy(SortBy(s, key), key)
    decreases |s|
  {
    if |s| > 0 {
      SortBySorted(s[..|s| - 1], key);
      InsertBySorted(SortBy(s[..|s| - 1], key), s[|s| - 1], key);
    }
  }

  /** A prefix of an ordered sequence is ordered. */
  lemma PrefixSorted<T>(s: seq<T>, key: T -> int, k: nat)
    requires k <= |s| && SortedBy(s, key)
    ensures SortedBy(s[..k], key)
  {
    var prefix := s[..k];
    forall i, j | 0 <= i < j < |prefix| ensures key(prefix[i]) <= key(prefix[j]) {
      assert prefix[i] == s[i] && prefix[j] == s[j];
    }
  }

  /** A prefix holds no element more often than the whole sequence. */
  lemma PrefixSubMultiset<T>(s: seq<T>, k: nat)
    requires k <= |s|
    ensures multiset(s[..k]) <= multiset(s)
  {
    assert s == s[..k] + s[k..];
    assert multiset(s) == multiset(s[..k]) + multiset(s[k..]);
  }

  /** Any prefix of the sorted sequence is itself ordered and drawn from the input. */
  lemma SortByPrefix<T>(s: seq<T>, key: T -> int, k: nat)
    requires k <= |s|
    ensures SortedBy(SortBy(s, key)[..k], key)
    ensures multiset(SortBy(s, key)[..k]) <= multiset(s)
  {
    var sorted := SortBy(s, key);
    SortBySorted(s, key);
    PrefixSorted(sorted, key, k);
    SortByPermutes(s, key);
    PrefixSubMultiset(sorted, k);
  }

  /** The elements whose key is `d`, in their original order. */
  function KeyFilter<T>(s: seq<T>, key: T -> int, d: int): seq<T>
    decreases |s|
  {
    if |s| == 0 then []
    else KeyFilter(s[..|s| - 1], key, d) + (if key(s[|s| - 1]) == d then [s[|s| - 1]] else [])
  }

  lemma {:induction false} KeyFilterConcat<T>(a: seq<T>, b: seq<T>, key: T -> int, d: int)
    ensures KeyFilter(a + b, key, d) == KeyFilter(a, key, d) + KeyFilter(b, key, d)
    decreases |b|
  {
    if |b| == 0 {
      assert a + b == a;
    } else {
      assert (a + b)[..|a + b| - 1] == a + b[..|b| - 1];
      KeyFilterConcat(a, b[..|b| - 1], key, d);
    }
  }

  lemma {:induction false} InsertByStable<T>(s: seq<T>, x: T, key: T -> int, d: int)
    ensures KeyFilter(InsertBy(s, x, key), key, d) == KeyFilter(s, key, d) + (if key(x) == d then [x] else [])
    decreases |s|
  {
    if |s| == 0 || key(s[|s| - 1]) <= key(x) {
      assert (s + [x])[..|s|] == s;
    } else {
      var init, last := s[..|s| - 1], s[|s| - 1];
      InsertByStable(init, x, key, d);
      KeyFilterConcat(InsertBy(init, x, key), [last], key, d);
      assert [last][..0] == [];
    }
  }

  /** Stability: among equal keys the sorted sequence keeps the input order. */
  lemma {:induction false} SortByStable<T>(s: seq<T>, key: T -> int, d: int)
    ensures KeyFilter(SortBy(s, key), key, d) == KeyFilter(s, key, d)
    decreases |s|
  {
    if |s| > 0 {
      SortByStable(s[..|s| - 1], key, d);
      InsertByStable(SortBy(s[..|s| - 1], key), s[|s| - 1], key, d);
    }
  }
}
