/** Keyword selection from TF-IDF scores. The scores come from
    scikit-learn's `TfidfVectorizer`, which the model replaces by an
    oracle: given the documents it yields a vocabulary of distinct terms
    and a weight for every (document, term) pair. What is modelled is
    what the scraper does with them: the input guards of
    `calculate_tfidf`, the word -> score dictionaries, the stable
    descending sort cut to the top `TOP_K`, and the 0.05 threshold. */
module Keywords {
  import opened PyBase
  import opened PyStr
  import opened Sorting

  /** A dictionary item `(word, score)`; a dictionary is the sequence of
      its items in insertion order. */
  type Entry = (string, real)

  function Word(e: Entry): string { e.0 }
  function Score(e: Entry): real { e.1 }

  /** `get_feature_names_out()`: terms without repetition. */
  type Vocabulary = v: seq<string> | Distinct(v) witness []

  /** A fitted vectorizer: its vocabulary and the matrix entry for
      document `doc` and the term at position `term`. */
  datatype Fit = Fit(features: Vocabulary, weight: (nat, nat) -> real)

  /** `TfidfVectorizer(...).fit_transform(docs)` as a given function. An
      empty corpus has no terms: scikit-learn raises `ValueError` for it,
      which the model reads as an empty vocabulary. */
  type Vectorizer = v: seq<string> -> Fit | v([]).features == []
    witness (docs: seq<string>) => Fit([], (doc: nat, term: nat) => 0.0)

  const TOP_K: nat := 10
  const MIN_SCORE: real := 0.05

  /** `{word: score for word, score in zip(feature_names, row)}` for the
      row of document `doc`. */
  function DocScores(f: Fit, doc: nat): (d: seq<Entry>)
    ensures Keys(d) == f.features
    ensures forall j :: 0 <= j < |d| ==> Score(d[j]) == f.weight(doc, j)
  {
    var n := |f.features|;
    var d := seq(n, j requires 0 <= j < n => (f.features[j], f.weight(doc, j)));
    assert Keys(d) == f.features;
    d
  }

  /** `calculate_tfidf(text)` of the single-document variant: `None`
      has no `.strip()`; blank text and an empty vocabulary raise
      `ValueError`; otherwise the scores of the one document. */
  function CalculateTfidf(text: Option<string>, vectorize: Vectorizer): Result<seq<Entry>> {
    match text
    case None => Err(AttributeError)
    case Some(t) =>
      if Strip(t) == "" then Err(ValueError(EmptyText))
      else
        var f := vectorize([t]);
        if |f.features| == 0 then Err(ValueError(NoValidWords))
        else Ok(DocScores(f, 0))
  }

  /** What the single-document variant promises: the failure for each
      guard, and on success a dictionary over the whole vocabulary with
      distinct keys. */
  lemma CalculateTfidfSpec(text: Option<string>, vectorize: Vectorizer)
    ensures CalculateTfidf(text, vectorize) == Err(AttributeError) <==> text.None?
    ensures CalculateTfidf(text, vectorize) == Err(ValueError(EmptyText))
            <==> text.Some? && AllSpace(text.value)
    ensures CalculateTfidf(text, vectorize) == Err(ValueError(NoValidWords))
            <==> text.Some? && !AllSpace(text.value) && |vectorize([text.value]).features| == 0
    ensures CalculateTfidf(text, vectorize).Ok? ==>
              var d := CalculateTfidf(text, vectorize).value;
              && Keys(d) == vectorize([text.value]).features
              && |d| >= 1 && Distinct(Keys(d))
  {
    if text.Some? {
      StripEmptyIff(text.value);
    }
  }

  /** The shared variant's argument: a single string or a list. */
  datatype TextInput = Str(s: string) | List(docs: seq<string>)

  /** `calculate_tfidf(text)` of the shared variant: a string is checked
      for blankness and wrapped as one document; a list is used as it
      is, unchecked. One dictionary per document, in document order. */
  function CalculateTfidfDocs(text: TextInput, vectorize: Vectorizer): Result<seq<seq<Entry>>> {
    if text.Str? && Strip(text.s) == "" then Err(ValueError(EmptyText))
    else
      var docs := if text.Str? then [text.s] else text.docs;
      var f := vectorize(docs);
      if |f.features| == 0 then Err(ValueError(NoValidWords))
      else Ok(seq(|docs|, i requires 0 <= i < |docs| => DocScores(f, i)))
  }

  /** The documents a `TextInput` stands for. */
  function Docs(text: TextInput): seq<string> {
    if text.Str? then [text.s] else text.docs
  }

  /** The shared variant: only a blank string is refused before
      vectorizing; on success there is one dictionary per document,
      aligned by index, each over the same full vocabulary. */
  lemma CalculateTfidfDocsSpec(text: TextInput, vectorize: Vectorizer)
    ensures CalculateTfidfDocs(text, vectorize) == Err(ValueError(EmptyText))
            <==> text.Str? && AllSpace(text.s)
    ensures CalculateTfidfDocs(text, vectorize) == Err(ValueError(NoValidWords))
            <==> !(text.Str? && AllSpace(text.s)) && |vectorize(Docs(text)).features| == 0
    ensures CalculateTfidfDocs(text, vectorize).Ok? ==>
              var ds := CalculateTfidfDocs(text, vectorize).value;
              var f := vectorize(Docs(text));
              && |ds| == |Docs(text)|
              && forall i :: 0 <= i < |ds| ==>
                   Keys(ds[i]) == f.features
                   && forall j :: 0 <= j < |ds[i]| ==> Score(ds[i][j]) == f.weight(i, j)
  {
    if text.Str? {
      StripEmptyIff(text.s);
    }
    var f := vectorize(Docs(text));
    if CalculateTfidfDocs(text, vectorize).Ok? {
      var ds := CalculateTfidfDocs(text, vectorize).value;
      forall i | 0 <= i < |ds|
        ensures Keys(ds[i]) == f.features
        ensures forall j :: 0 <= j < |ds[i]| ==> Score(ds[i][j]) == f.weight(i, j)
      {
        assert ds[i] == DocScores(f, i);
      }
    }
  }

  /** An empty list of documents, such as the titles of a run that found
      no paper, raises `ValueError`. */
  lemma EmptyCorpusRaises(vectorize: Vectorizer)
    ensures CalculateTfidfDocs(List([]), vectorize) == Err(ValueError(NoValidWords))
  {
  }

  /** On one string the two variants agree: the shared one gives the
      single-document dictionary wrapped in a list, or the same error. */
  lemma VariantsAgree(t: string, vectorize: Vectorizer)
    ensures CalculateTfidf(Some(t), vectorize).Err? <==> CalculateTfidfDocs(Str(t), vectorize).Err?
    ensures CalculateTfidf(Some(t), vectorize).Err? ==>
              CalculateTfidf(Some(t), vectorize).exc == CalculateTfidfDocs(Str(t), vectorize).exc
    ensures CalculateTfidf(Some(t), vectorize).Ok? ==>
              CalculateTfidfDocs(Str(t), vectorize).value == [CalculateTfidf(Some(t), vectorize).value]
  {
  }

  /** `sorted(d.items(), key=lambda x: x[1], reverse=True)[:k]`. */
  function TopK(d: seq<Entry>, k: nat): seq<Entry> {
    Take(SortDesc(d, Score), k)
  }

  /** The top-`k` list: `min(k, len(d))` items of `d`, by non-increasing
      score, each scoring at least every item left out, and with equal
      scores in their dictionary order (the items of each score are a
      prefix of that score's items in `d`). */
  lemma TopKCorrect(d: seq<Entry>, k: nat)
    ensures var r := TopK(d, k);
            && |r| == Min(k, |d|)
            && NonIncreasing(r, Score)
            && multiset(r) <= multiset(d)
            && (forall e, i :: e in d && e !in r && 0 <= i < |r| ==> Score(e) <= Score(r[i]))
            && (forall v :: var p := WithKey(r, Score, v);
                  |p| <= |WithKey(d, Score, v)| && p == WithKey(d, Score, v)[..|p|])
  {
    var s := SortDesc(d, Score);
    SortDescCorrect(d, Score);
    var r := TopK(d, k);
    assert s == r + s[|r|..];
    assert multiset(s) == multiset(r) + multiset(s[|r|..]);
    forall e, i | e in d && e !in r && 0 <= i < |r|
      ensures Score(e) <= Score(r[i])
    {
      assert e in multiset(s);
      var j :| 0 <= j < |s| && s[j] == e;
      assert j >= |r|;
      assert r[i] == s[i];
    }
    forall v
      ensures var p := WithKey(r, Score, v);
              |p| <= |WithKey(d, Score, v)| && p == WithKey(d, Score, v)[..|p|]
    {
      WithKeyPrefix(s, |r|, Score, v);
      assert s[..|r|] == r;
    }
  }

  /** The words of the top-`k` items, in order (`[word for word, _ in ...]`). */
  function TopWords(d: seq<Entry>, k: nat): (ws: seq<string>)
    ensures |ws| == Min(k, |d|)
    ensures forall i :: 0 <= i < |ws| ==> exists j :: 0 <= j < |d| && Word(d[j]) == ws[i]
    ensures ws == Keys(TopK(d, k))
  {
    var r := TopK(d, k);
    TopKFromDict(d, k);
    forall i | 0 <= i < |r|
      ensures exists j :: 0 <= j < |d| && Word(d[j]) == Word(r[i])
    {
      assert r[i] in d;
    }
    seq(|r|, i requires 0 <= i < |r| => Word(r[i]))
  }

  /** The top-`k` items are `min(k, len(d))` items of the dictionary. */
  lemma TopKFromDict(d: seq<Entry>, k: nat)
    ensures |TopK(d, k)| == Min(k, |d|)
    ensures forall e :: e in TopK(d, k) ==> e in d
  {
    TopKCorrect(d, k);
    forall e | e in TopK(d, k)
      ensures e in d
    {
      assert e in multiset(TopK(d, k));
    }
  }

  /** The items scoring at least the threshold, order kept. */
  function AtLeast(s: seq<Entry>, min: real): seq<Entry> {
    if s == [] then []
    else (if Score(s[0]) >= min then [s[0]] else []) + AtLeast(s[1..], min)
  }

  /** `{w: s for w, s in top if s >= 0.05}` over the top-`k` items. */
  function Thresholded(d: seq<Entry>, k: nat): seq<Entry> {
    AtLeast(TopK(d, k), MIN_SCORE)
  }

  /** `a` is `b` with some items left out, order kept. */
  predicate SubsequenceOf<T(==)>(a: seq<T>, b: seq<T>)
    decreases |b|
  {
    if a == [] then true
    else if b == [] then false
    else if a[0] == b[0] then SubsequenceOf(a[1..], b[1..])
    else SubsequenceOf(a, b[1..])
  }

  /** Filtering keeps exactly the items at or above the threshold, in
      order, each as often as it occurs. */
  lemma {:induction false} AtLeastSpec(s: seq<Entry>, min: real)
    ensures SubsequenceOf(AtLeast(s, min), s)
    ensures forall e :: e in AtLeast(s, min) <==> e in s && Score(e) >= min
    ensures forall e :: multiset(AtLeast(s, min))[e] == if Score(e) >= min then multiset(s)[e] else 0
    ensures |AtLeast(s, min)| <= |s|
  {
    if s != [] {
      AtLeastSpec(s[1..], min);
      var rest := AtLeast(s[1..], min);
      assert s == [s[0]] + s[1..];
      assert multiset(s) == multiset([s[0]]) + multiset(s[1..]);
      if Score(s[0]) >= min {
        assert AtLeast(s, min) == [s[0]] + rest;
        assert ([s[0]] + rest)[1..] == rest;
        assert multiset(AtLeast(s, min)) == multiset([s[0]]) + multiset(rest);
      } else {
        assert AtLeast(s, min) == rest;
      }
    }
  }

  /** A subsequence of a non-increasing list is non-increasing. */
  lemma {:induction false} SubsequenceSorted(a: seq<Entry>, b: seq<Entry>)
    requires SubsequenceOf(a, b) && NonIncreasing(b, Score)
    ensures NonIncreasing(a, Score)
    decreases |b|
  {
    if a != [] && b != [] {
      assert NonIncreasing(b[1..], Score);
      if a[0] == b[0] {
        SubsequenceSorted(a[1..], b[1..]);
        SubsequenceIn(a[1..], b[1..]);
        forall j | 0 < j < |a| ensures Score(a[j]) <= Score(a[0]) {
          assert a[j] == a[1..][j - 1];
          assert a[j] in b[1..];
          var m :| 0 <= m < |b[1..]| && b[1..][m] == a[j];
          assert b[m + 1] == a[j];
        }
      } else {
        SubsequenceSorted(a, b[1..]);
      }
    }
  }

  /** Every item of a subsequence is an item of the sequence. */
  lemma {:induction false} SubsequenceIn<T>(a: seq<T>, b: seq<T>)
    requires SubsequenceOf(a, b)
    ensures forall e :: e in a ==> e in b
    decreases |b|
  {
    if a != [] && b != [] {
      if a[0] == b[0] {
        SubsequenceIn(a[1..], b[1..]);
        assert a == [a[0]] + a[1..];
      } else {
        SubsequenceIn(a, b[1..]);
      }
    }
  }

  /** The thresholded keywords: at most `k` of them, each scoring at
      least 0.05, taken in order from the top-`k` list, with every top-`k`
      item that reaches 0.05 kept, by non-increasing score. */
  lemma ThresholdedCorrect(d: seq<Entry>, k: nat)
    ensures var t := Thresholded(d, k);
            && |t| <= k
            && (forall i :: 0 <= i < |t| ==> Score(t[i]) >= MIN_SCORE)
            && SubsequenceOf(t, TopK(d, k))
            && (forall e :: e in TopK(d, k) && Score(e) >= MIN_SCORE ==> e in t)
            && NonIncreasing(t, Score)
  {
    var r := TopK(d, k);
    TopKCorrect(d, k);
    AtLeastSpec(r, MIN_SCORE);
    var t := Thresholded(d, k);
    assert forall i :: 0 <= i < |t| ==> t[i] in t;
    SubsequenceSorted(t, r);
  }
}
