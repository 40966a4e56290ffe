/** Python's `sorted(items, key=key, reverse=True)`: a stable sort into
    non-increasing key order. Python keeps equal keys in their original
    order even with `reverse=True`; the insertion sort below does the
    same, and the lemmas prove it sorted, a permutation, and stable. */
module Sorting {

  /** Keys never increase from left to right. */
  predicate NonIncreasing<T>(s: seq<T>, key: T -> real) {
    forall i, j :: 0 <= i < j < |s| ==> key(s[j]) <= key(s[i])
  }

  /** The elements of `s` whose key is `v`, in their order in `s`. */
  function WithKey<T>(s: seq<T>, key: T -> real, v: real): seq<T> {
    if s == [] then []
    else (if key(s[0]) == v then [s[0]] else []) + WithKey(s[1..], key, v)
  }

  /** Puts `x` in front of the first element whose key is not above its
      own, so that `x` precedes every element with an equal key. */
  function Insert<T>(x: T, s: seq<T>, key: T -> real): seq<T> {
    if s == [] || key(s[0]) <= key(x) then [x] + s
    else [s[0]] + Insert(x, s[1..], key)
  }

  function SortDesc<T>(s: seq<T>, key: T -> real): seq<T> {
    if s == [] then [] else Insert(s[0], SortDesc(s[1..], key), key)
  }

  /** The first `k` elements (Python's `s[:k]` for `k >= 0`). */
  function Take<T>(s: seq<T>, k: nat): (r: seq<T>)
    ensures |r| == if k <= |s| then k else |s|
    ensures r == s[..|r|]
  {
    if k <= |s| then s[..k] else s
  }

  lemma {:induction false} InsertPerm<T>(x: T, s: seq<T>, key: T -> real)
    ensures multiset(Insert(x, s, key)) == multiset{x} + multiset(s)
    ensures |Insert(x, s, key)| == |s| + 1
  {
    if s != [] && key(s[0]) > key(x) {
      InsertPerm(x, s[1..], key);
      assert s == [s[0]] + s[1..];
    }
  }

  /** Everything in `Insert(x, s)` is `x` or came from `s`. */
  lemma {:induction false} InsertElems<T>(x: T, s: seq<T>, key: T -> real)
    ensures forall e :: e in Insert(x, s, key) ==> e == x || e in s
  {
    if s != [] && key(s[0]) > key(x) {
      InsertElems(x, s[1..], key);
    }
  }

  lemma {:induction false} InsertSorted<T>(x: T, s: seq<T>, key: T -> real)
    requires NonIncreasing(s, key)
    ensures NonIncreasing(Insert(x, s, key), key)
  {
    if s != [] && key(s[0]) > key(x) {
      InsertSorted(x, s[1..], key);
      InsertElems(x, s[1..], key);
      var t := Insert(x, s[1..], key);
      assert forall e :: e in s[1..] ==> key(e) <= key(s[0]);
      assert forall j :: 0 <= j < |t| ==> key(t[j]) <= key(s[0]) by {
        forall j | 0 <= j < |t| ensures key(t[j]) <= key(s[0]) {
          assert t[j] in t;
        }
      }
      assert Insert(x, s, key) == [s[0]] + t;
    }
  }

  lemma {:induction false} InsertWithKey<T>(x: T, s: seq<T>, key: T -> real, v: real)
    ensures WithKey(Insert(x, s, key), key, v) == WithKey([x] + s, key, v)
  {
    if s == [] || key(s[0]) <= key(x) {
    } else {
      InsertWithKey(x, s[1..], key, v);
      var t := Insert(x, s[1..], key);
      assert Insert(x, s, key) == [s[0]] + t;
      assert ([s[0]] + t)[1..] == t;
      assert ([x] + s)[1..] == s;
      assert ([x] + s[1..])[1..] == s[1..];
      if key(x) == v {
        assert key(s[0]) != v;
      }
    }
  }

  /** `SortDesc` sorts by non-increasing key, is a permutation of its
      input, and keeps the elements of every key in input order. */
  lemma {:induction false} SortDescCorrect<T>(s: seq<T>, key: T -> real)
    ensures NonIncreasing(SortDesc(s, key), key)
    ensures multiset(SortDesc(s, key)) == multiset(s)
    ensures |SortDesc(s, key)| == |s|
    ensures forall v :: WithKey(SortDesc(s, key), key, v) == WithKey(s, key, v)
  {
    if s != [] {
      SortDescCorrect(s[1..], key);
      var t := SortDesc(s[1..], key);
      InsertSorted(s[0], t, key);
      InsertPerm(s[0], t, key);
      assert s == [s[0]] + s[1..];
      forall v ensures WithKey(SortDesc(s, key), key, v) == WithKey(s, key, v) {
        InsertWithKey(s[0], t, key, v);
        assert ([s[0]] + t)[1..] == t;
      }
    }
  }

  /** The keys of a prefix of `s` form a prefix of the keys of `s`. */
  lemma {:induction false} WithKeyPrefix<T>(s: seq<T>, n: nat, key: T -> real, v: real)
    requires n <= |s|
    ensures var p := WithKey(s[..n], key, v);
            |p| <= |WithKey(s, key, v)| && p == WithKey(s, key, v)[..|p|]
  {
    if n > 0 {
      WithKeyPrefix(s[1..], n - 1, key, v);
      assert s[..n][1..] == s[1..][..n - 1];
    } else {
      assert s[..0] == [];
    }
  }
}
