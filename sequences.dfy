/** Python's `sorted` with a string key and the built-in `filter`, on
    sequences. `sorted` is stable, and a stable sort's output is fixed by the
    order alone, so a stable insertion sort computes exactly what `sorted`
    computes. */
module Sequences {
  import opened Text

  /** Adjacent elements are in non-decreasing key order. */
  ghost predicate SortedBy<T>(s: seq<T>, key: T -> string) {
    forall i :: 0 < i < |s| ==> !StrLess(key(s[i]), key(s[i - 1]))
  }

  /** Every pair of elements is in non-decreasing key order. */
  ghost predicate PairwiseSortedBy<T>(s: seq<T>, key: T -> string) {
    forall i, j :: 0 <= i < j < |s| ==> !StrLess(key(s[j]), key(s[i]))
  }

  /** The elements of `s` whose key is `k`, in their order in `s`. */
  function WithKey<T>(s: seq<T>, key: T -> string, k: string): seq<T> {
    if s == [] then []
    else (if key(s[0]) == k then [s[0]] else []) + WithKey(s[1..], key, k)
  }

  /** Insert `x` in front of the first element whose key is not smaller. */
  function InsertBy<T>(x: T, s: seq<T>, key: T -> string): (r: seq<T>)
    ensures |r| == |s| + 1
    ensures r[0] == x || (s != [] && r[0] == s[0])
    ensures multiset(r) == multiset(s) + multiset{x}
  {
    if s == [] then [x]
    else if StrLess(key(s[0]), key(x)) then
      assert s == [s[0]] + s[1..];
      [s[0]] + InsertBy(x, s[1..], key)
    else [x] + s
  }

  /** `sorted(s, key=key)`. */
  function SortBy<T>(s: seq<T>, key: T -> string): seq<T> {
    if s == [] then [] else InsertBy(s[0], SortBy(s[1..], key), key)
  }

  lemma {:induction false} InsertBySorted<T>(x: T, s: seq<T>, key: T -> string)
    requires SortedBy(s, key)
    ensures SortedBy(InsertBy(x, s, key), key)
  {
    if s != [] && StrLess(key(s[0]), key(x)) {
      InsertBySorted(x, s[1..], key);
      StrLessAsymmetric(key(s[0]), key(x));
    }
  }

  /** Inserting `x` puts it in front of every element with its key and
      leaves the elements with any other key in their order. */
  lemma {:induction false} InsertByStable<T>(x: T, s: seq<T>, key: T -> string, k: string)
    ensures WithKey(InsertBy(x, s, key), key, k)
         == (if key(x) == k then [x] else []) + WithKey(s, key, k)
  {
    if s != [] && StrLess(key(s[0]), key(x)) {
      var r := InsertBy(x, s, key);
      var tail := InsertBy(x, s[1..], key);
      assert r == [s[0]] + tail;
      assert r[1..] == tail;
      InsertByStable(x, s[1..], key, k);
      StrLessIrreflexive(key(x));
      assert WithKey(r, key, k) == (if key(s[0]) == k then [s[0]] else []) + WithKey(tail, key, k);
      assert WithKey(s, key, k) == (if key(s[0]) == k then [s[0]] else []) + WithKey(s[1..], key, k);
      if key(x) == k {
        assert key(s[0]) != k;
      }
    } else if s != [] {
      assert ([x] + s)[1..] == s;
    }
  }

  /** The sort orders by key, keeps every element as often as it occurs,
      and keeps equal-keyed elements in their input order (stability). */
  lemma {:induction false} SortByCorrect<T>(s: seq<T>, key: T -> string)
    ensures SortedBy(SortBy(s, key), key)
    ensures multiset(SortBy(s, key)) == multiset(s)
    ensures forall k :: WithKey(SortBy(s, key), key, k) == WithKey(s, key, k)
  {
    if s != [] {
      SortByCorrect(s[1..], key);
      InsertBySorted(s[0], SortBy(s[1..], key), key);
      assert s == [s[0]] + s[1..];
      forall k ensures WithKey(SortBy(s, key), key, k) == WithKey(s, key, k) {
        InsertByStable(s[0], SortBy(s[1..], key), key, k);
      }
    }
  }

  /** Sorted adjacent pairs make every pair sorted, because string
      comparison is a total order. */
  lemma {:induction false} SortedPairwise<T>(s: seq<T>, key: T -> string)
    requires SortedBy(s, key)
    ensures PairwiseSortedBy(s, key)
    decreases |s|
  {
    if |s| > 1 {
      SortedPairwise(s[1..], key);
      forall j | 1 < j < |s| ensures !StrLess(key(s[j]), key(s[0])) {
        assert !StrLess(key(s[j]), key(s[1])) by {
          assert s[1..][j - 1] == s[j] && s[1..][0] == s[1];
        }
        if StrLess(key(s[j]), key(s[0])) {
          StrLessTotal(key(s[j]), key(s[1]));
          if key(s[j]) == key(s[1]) {
            assert false;
          } else {
            StrLessTransitive(key(s[1]), key(s[j]), key(s[0]));
            assert false;
          }
        }
      }
    }
  }

  /** `filter(p, s)`. */
  function FilterBy<T(!new)>(s: seq<T>, p: T -> bool): (r: seq<T>)
    ensures forall x :: multiset(r)[x] == if p(x) then multiset(s)[x] else 0
    ensures forall x :: x in r ==> p(x)
  {
    if s == [] then []
    else
      assert s == [s[0]] + s[1..];
      (if p(s[0]) then [s[0]] else []) + FilterBy(s[1..], p)
  }

  /** `a` is `b` with some elements left out. */
  ghost predicate Subsequence<T>(a: seq<T>, b: seq<T>) {
    a == [] || (b != [] && ((a[0] == b[0] && Subsequence(a[1..], b[1..])) || Subsequence(a, b[1..])))
  }

  lemma {:induction false} FilterBySubsequence<T(!new)>(s: seq<T>, p: T -> bool)
    ensures Subsequence(FilterBy(s, p), s)
  {
    if s != [] {
      FilterBySubsequence(s[1..], p);
      var r := FilterBy(s, p);
      if p(s[0]) {
        assert r[0] == s[0] && r[1..] == FilterBy(s[1..], p);
      } else {
        assert r == FilterBy(s[1..], p);
      }
    }
  }
}
