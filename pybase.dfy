/** Values and failures shared by every part of the scraper model:
    `Option` for Python's `None`, and `Result` for a call that either
    returns a value or raises one of the Python exceptions below. */
module PyBase {

  datatype Option<T> = None | Some(value: T)

  /** Why a `ValueError` was raised. */
  datatype ValueReason =
    | EmptyText          // calculate_tfidf: the text is empty or whitespace only
    | NoValidWords       // calculate_tfidf: the vocabulary has no terms left
    | ZeroRangeStep      // range(0, n, 0) inside chunkify
    | EmptySeparator     // str.split("")
    | PoolTooSmall       // multiprocessing.Pool(processes < 1)
    | NothingToConcat    // pandas.concat([])
    | MaxOfEmpty         // max() over an empty sequence
    | LengthMismatch     // a column assigned a list whose length differs from a non-empty DataFrame's

  /** The Python exceptions the modelled code can raise. */
  datatype Exc =
    | ValueError(reason: ValueReason)
    | AttributeError     // an attribute looked up on None
    | TypeError          // None["content"]
    | KeyError           // a missing dict / tag attribute / column key
    | IndexError         // a list index out of range
    | ZeroDivisionError  // len(lst) // 0
    | RequestError       // requests.get / raise_for_status failed

  datatype Result<T> = Ok(value: T) | Err(exc: Exc)

  function Min(a: int, b: int): int { if a <= b then a else b }
  function Max(a: int, b: int): int { if a >= b then a else b }

  /** The keys of a list of (key, value) items, in order: the keys of a
      dictionary or of a row, taken in insertion order. */
  function Keys<K, V>(d: seq<(K, V)>): (ks: seq<K>)
    ensures |ks| == |d|
  {
    seq(|d|, i requires 0 <= i < |d| => d[i].0)
  }

  /** No two positions of `s` hold the same value. */
  predicate Distinct<T(==)>(s: seq<T>) {
    forall i, j :: 0 <= i < j < |s| ==> s[i] != s[j]
  }

  /** The concatenation of a sequence of sequences, in order. */
  function Flatten<T>(ss: seq<seq<T>>): seq<T> {
    if ss == [] then [] else ss[0] + Flatten(ss[1..])
  }

  lemma {:induction false} FlattenAppend<T>(a: seq<seq<T>>, b: seq<seq<T>>)
    ensures Flatten(a + b) == Flatten(a) + Flatten(b)
  {
    if a == [] {
      assert a + b == b;
    } else {
      assert (a + b)[0] == a[0];
      assert (a + b)[1..] == a[1..] + b;
      FlattenAppend(a[1..], b);
    }
  }
}
