/** The word-frequency report of the NeurIPS title listing: the words of
    the page, lowercased, are counted in first-occurrence order, ranked by
    count (largest first, ties in first-occurrence order), and the first
    100 are printed one per line, the words left-aligned and the counts
    right-aligned in two columns. A failed request prints the status code
    instead. The page's words are given as a token sequence. */
module WordFreq {
  import opened PyBase
  import opened PyStr
  import opened Sorting

  /** A `Counter` item: a word and how often it occurs. */
  type WordCount = (string, nat)

  const OK_STATUS: int := 200

  /** How many of the ranked words are printed (`_num`). */
  const NUM: nat := 100

  /** `[word.lower() for word in words]`. */
  function Lowered(tokens: seq<string>): (ws: seq<string>)
    ensures |ws| == |tokens|
    ensures forall i :: 0 <= i < |tokens| ==> ws[i] == Lower(tokens[i])
  {
    seq(|tokens|, i requires 0 <= i < |tokens| => Lower(tokens[i]))
  }

  /** How many times `w` occurs in `ws`: the reference count. */
  function Occurrences(ws: seq<string>, w: string): nat {
    if ws == [] then 0
    else Occurrences(ws[..|ws| - 1], w) + (if ws[|ws| - 1] == w then 1 else 0)
  }

  /** The position of the first occurrence of `w`. */
  function First(ws: seq<string>, w: string): (k: nat)
    requires w in ws
    ensures k < |ws| && ws[k] == w && forall j :: 0 <= j < k ==> ws[j] != w
  {
    if ws[0] == w then 0 else 1 + First(ws[1..], w)
  }

  function Words(c: seq<WordCount>): (r: seq<string>)
    ensures |r| == |c| && forall i :: 0 <= i < |c| ==> r[i] == c[i].0
  {
    seq(|c|, i requires 0 <= i < |c| => c[i].0)
  }

  function Total(c: seq<WordCount>): nat {
    if c == [] then 0 else c[0].1 + Total(c[1..])
  }

  /** Counting one more occurrence of `w`: its count goes up by one, or
      it is added at the end with count 1. */
  function Bump(c: seq<WordCount>, w: string): seq<WordCount> {
    if c == [] then [(w, 1)]
    else if c[0].0 == w then [(w, c[0].1 + 1)] + c[1..]
    else [c[0]] + Bump(c[1..], w)
  }

  /** `Counter(ws)`: the words are counted one at a time, in order. */
  function Counter(ws: seq<string>): seq<WordCount> {
    if ws == [] then [] else Bump(Counter(ws[..|ws| - 1]), ws[|ws| - 1])
  }

  /** A word already counted keeps its place and gains one; a new word
      comes last with count one; the total grows by one. */
  lemma BumpSpec(c: seq<WordCount>, w: string)
    requires Distinct(Words(c))
    ensures Distinct(Words(Bump(c, w)))
    ensures w in Words(c) ==>
              && Words(Bump(c, w)) == Words(c)
              && forall i :: 0 <= i < |c| ==> Bump(c, w)[i].1 == c[i].1 + (if c[i].0 == w then 1 else 0)
    ensures w !in Words(c) ==> Bump(c, w) == c + [(w, 1)]
    ensures Total(Bump(c, w)) == Total(c) + 1
  {
    BumpTotal(c, w);
    if w in Words(c) {
      BumpPresent(c, w);
      assert Words(Bump(c, w)) == Words(c);
    } else {
      BumpAbsent(c, w);
      AppendDistinct(Words(c), w);
      assert Words(Bump(c, w)) == Words(c) + [w];
    }
  }

  lemma {:induction false} BumpAbsent(c: seq<WordCount>, w: string)
    requires w !in Words(c)
    ensures Bump(c, w) == c + [(w, 1)]
  {
    if c != [] {
      assert Words(c)[0] == c[0].0;
      assert w !in Words(c[1..]) by {
        assert forall i :: 0 <= i < |c[1..]| ==> Words(c[1..])[i] == Words(c)[i + 1];
      }
      BumpAbsent(c[1..], w);
      assert [c[0]] + (c[1..] + [(w, 1)]) == c + [(w, 1)];
    }
  }

  lemma {:induction false} BumpPresent(c: seq<WordCount>, w: string)
    requires Distinct(Words(c)) && w in Words(c)
    ensures |Bump(c, w)| == |c|
    ensures forall i :: 0 <= i < |c| ==> Bump(c, w)[i].0 == c[i].0
    ensures forall i :: 0 <= i < |c| ==> Bump(c, w)[i].1 == c[i].1 + (if c[i].0 == w then 1 else 0)
  {
    assert Words(c)[0] == c[0].0;
    if c[0].0 == w {
      BumpHead(c, w);
    } else {
      var t := c[1..];
      assert forall i :: 0 <= i < |t| ==> Words(t)[i] == Words(c)[i + 1];
      assert w in Words(t) by {
        var k :| 0 <= k < |c| && Words(c)[k] == w;
        assert Words(t)[k - 1] == w;
      }
      BumpPresent(t, w);
      var b := Bump(c, w);
      assert b == [c[0]] + Bump(t, w);
      forall i | 0 <= i < |c|
        ensures b[i].0 == c[i].0 && b[i].1 == c[i].1 + (if c[i].0 == w then 1 else 0)
      {
        if i > 0 {
          assert b[i] == Bump(t, w)[i - 1] && c[i] == t[i - 1];
        }
      }
    }
  }

  lemma BumpHead(c: seq<WordCount>, w: string)
    requires Distinct(Words(c)) && c != [] && c[0].0 == w
    ensures Bump(c, w) == [(w, c[0].1 + 1)] + c[1..]
    ensures forall i :: 1 <= i < |c| ==> c[i].0 != w
  {
    assert Words(c)[0] == w;
    assert forall i :: 1 <= i < |c| ==> Words(c)[i] == c[i].0;
  }

  lemma {:induction false} BumpTotal(c: seq<WordCount>, w: string)
    ensures Total(Bump(c, w)) == Total(c) + 1
  {
    if c != [] && c[0].0 != w {
      BumpTotal(c[1..], w);
      assert ([c[0]] + Bump(c[1..], w))[1..] == Bump(c[1..], w);
    } else if c != [] {
      assert ([(w, c[0].1 + 1)] + c[1..])[1..] == c[1..];
    }
  }

  lemma AppendDistinct(s: seq<string>, x: string)
    requires Distinct(s) && x !in s
    ensures Distinct(s + [x])
  {
  }

  lemma {:induction false} TotalAppend(c: seq<WordCount>, e: WordCount)
    ensures Total(c + [e]) == Total(c) + e.1
  {
    if c != [] {
      assert (c + [e])[1..] == c[1..] + [e];
      TotalAppend(c[1..], e);
    }
  }

  /** A word's first occurrence does not move when a word is appended;
      a word new to the list first occurs where it is appended. */
  lemma {:induction false} FirstAppend(ws: seq<string>, x: string, w: string)
    requires w in ws + [x]
    ensures w in ws ==> First(ws + [x], w) == First(ws, w)
    ensures w !in ws ==> First(ws + [x], w) == |ws|
  {
    var k := First(ws + [x], w);
    if w in ws {
      var m := First(ws, w);
      assert (ws + [x])[m] == w;
      assert k <= m;
      assert ws[k] == w;
    } else {
      assert forall j :: 0 <= j < |ws| ==> (ws + [x])[j] != w;
    }
  }

  /** The counter is a reference count in closed form: each word of the
      list once, each with its number of occurrences, the counts adding
      up to the length of the list, and the words in the order of their
      first occurrence. */
  lemma CounterSpec(ws: seq<string>)
    ensures var c := Counter(ws);
            && Distinct(Words(c))
            && (forall w :: w in Words(c) <==> w in ws)
            && (forall i :: 0 <= i < |c| ==> c[i].1 == Occurrences(ws, c[i].0))
            && Total(c) == |ws|
            && forall i, j :: 0 <= i < j < |c| ==> First(ws, c[i].0) < First(ws, c[j].0)
  {
    CounterWords(ws);
    CounterCounts(ws);
    CounterOrder(ws);
  }

  lemma {:induction false} CounterWords(ws: seq<string>)
    ensures Distinct(Words(Counter(ws)))
    ensures forall w :: w in Words(Counter(ws)) <==> w in ws
  {
    if ws != [] {
      var init, x := ws[..|ws| - 1], ws[|ws| - 1];
      assert ws == init + [x];
      CounterWords(init);
      var c0 := Counter(init);
      BumpSpec(c0, x);
      forall w
        ensures w in Words(Counter(ws)) <==> w in ws
      {
        assert w in ws <==> w in init || w == x;
        if x !in Words(c0) {
          assert Words(Counter(ws)) == Words(c0) + [x];
        }
      }
    }
  }

  lemma {:induction false} CounterCounts(ws: seq<string>)
    ensures forall i :: 0 <= i < |Counter(ws)| ==> Counter(ws)[i].1 == Occurrences(ws, Counter(ws)[i].0)
    ensures Total(Counter(ws)) == |ws|
  {
    if ws != [] {
      var init, x := ws[..|ws| - 1], ws[|ws| - 1];
      CounterWords(init);
      CounterCounts(init);
      var c0 := Counter(init);
      var c := Counter(ws);
      BumpSpec(c0, x);
      forall i | 0 <= i < |c|
        ensures c[i].1 == Occurrences(ws, c[i].0)
      {
        if x !in Words(c0) && i == |c0| {
          assert c[i] == (x, 1);
          OccurrencesAbsent(init, x);
        } else {
          assert Words(c)[i] == Words(c0)[i];
        }
      }
      if x !in Words(c0) {
        TotalAppend(c0, (x, 1));
      }
    }
  }

  lemma {:induction false} CounterOrder(ws: seq<string>)
    ensures forall w :: w in Words(Counter(ws)) ==> w in ws
    ensures forall i, j :: 0 <= i < j < |Counter(ws)| ==> First(ws, Counter(ws)[i].0) < First(ws, Counter(ws)[j].0)
  {
    CounterWords(ws);
    if ws != [] {
      var init, x := ws[..|ws| - 1], ws[|ws| - 1];
      assert ws == init + [x];
      CounterWords(init);
      CounterOrder(init);
      var c0 := Counter(init);
      var c := Counter(ws);
      BumpSpec(c0, x);
      forall i, j | 0 <= i < j < |c|
        ensures First(ws, c[i].0) < First(ws, c[j].0)
      {
        assert Words(c)[i] == Words(c0)[i];
        if x !in Words(c0) && j == |c0| {
          assert c[j].0 == x;
          FirstAppend(init, x, c[i].0);
          FirstAppend(init, x, x);
        } else {
          assert Words(c)[j] == Words(c0)[j];
          FirstAppend(init, x, c[i].0);
          FirstAppend(init, x, c[j].0);
        }
      }
    }
  }

  lemma {:induction false} OccurrencesAbsent(ws: seq<string>, w: string)
    requires w !in ws
    ensures Occurrences(ws, w) == 0
  {
    if ws != [] {
      assert ws[..|ws| - 1] + [ws[|ws| - 1]] == ws;
      OccurrencesAbsent(ws[..|ws| - 1], w);
    }
  }

  /** `Counter([word.lower() for word in words])`. */
  function WordCounts(tokens: seq<string>): seq<WordCount> {
    Counter(Lowered(tokens))
  }

  /** The sort key `x[1]`. */
  function CountKey(e: WordCount): real {
    e.1 as real
  }

  /** `sorted(word_counts.items(), key=lambda x: x[1], reverse=True)`. */
  function Ranked(tokens: seq<string>): seq<WordCount> {
    SortDesc(WordCounts(tokens), CountKey)
  }

  /** `sorted_word_counts[:_num]`. */
  function Top(tokens: seq<string>): seq<WordCount> {
    Take(Ranked(tokens), NUM)
  }

  /** The counts are case-insensitive: each counted word is in lower
      case, is the lowercase form of some token, appears once, and
      counts the tokens with that lowercase form; the counts add up to
      the number of tokens. */
  lemma WordCountsSpec(tokens: seq<string>)
    ensures var c := WordCounts(tokens);
            && Distinct(Words(c))
            && Total(c) == |tokens|
            && (forall i :: 0 <= i < |c| ==> Lower(c[i].0) == c[i].0)
            && (forall w :: w in Words(c) <==> exists k :: 0 <= k < |tokens| && Lower(tokens[k]) == w)
            && (forall i :: 0 <= i < |c| ==> c[i].1 == Occurrences(Lowered(tokens), c[i].0))
  {
    var ws := Lowered(tokens);
    var c := WordCounts(tokens);
    CounterSpec(ws);
    forall i | 0 <= i < |c|
      ensures Lower(c[i].0) == c[i].0
    {
      assert Words(c)[i] == c[i].0 && Words(c)[i] in Words(c);
      assert c[i].0 in ws;
      var k :| 0 <= k < |ws| && ws[k] == c[i].0;
      LowerIdempotent(tokens[k]);
    }
    forall w
      ensures w in Words(c) <==> exists k :: 0 <= k < |tokens| && Lower(tokens[k]) == w
    {
      if w in Words(c) {
        var k :| 0 <= k < |ws| && ws[k] == w;
        assert Lower(tokens[k]) == w;
      }
      if exists k :: 0 <= k < |tokens| && Lower(tokens[k]) == w {
        var k :| 0 <= k < |tokens| && Lower(tokens[k]) == w;
        assert ws[k] == w;
      }
    }
  }

  /** Two token lists with the same lowercase forms give the same
      report. */
  lemma CaseInsensitive(status: int, tokens: seq<string>, others: seq<string>)
    requires |tokens| == |others|
    requires forall i :: 0 <= i < |tokens| ==> Lower(tokens[i]) == Lower(others[i])
    ensures Report(status, tokens) == Report(status, others)
  {
    assert Lowered(tokens) == Lowered(others);
  }

  /** The ranking is by non-increasing count, holds every counted word
      exactly once (despite the "ascending" comment of the source), and
      keeps words of equal count in first-occurrence order. */
  lemma RankedSpec(tokens: seq<string>)
    ensures NonIncreasing(Ranked(tokens), CountKey)
    ensures |Ranked(tokens)| == |WordCounts(tokens)|
    ensures multiset(Ranked(tokens)) == multiset(WordCounts(tokens))
    ensures forall v :: WithKey(Ranked(tokens), CountKey, v) == WithKey(WordCounts(tokens), CountKey, v)
  {
    SortDescCorrect(WordCounts(tokens), CountKey);
  }

  /** The longest length among the strings (`max(len(...) for ...)`). */
  function MaxLen(ss: seq<string>): (m: nat)
    requires ss != []
    ensures forall i :: 0 <= i < |ss| ==> |ss[i]| <= m
    ensures exists i :: 0 <= i < |ss| && |ss[i]| == m
  {
    if |ss| == 1 then |ss[0]|
    else
      var rest := MaxLen(ss[1..]);
      assert forall i :: 1 <= i < |ss| ==> ss[i] == ss[1..][i - 1];
      var k :| 0 <= k < |ss[1..]| && |ss[1..][k]| == rest;
      assert |ss[k + 1]| == rest;
      Max(|ss[0]|, rest)
  }

  /** The decimal spellings of the counts. */
  function CountStrings(c: seq<WordCount>): (r: seq<string>)
    ensures |r| == |c|
  {
    seq(|c|, i requires 0 <= i < |c| => NatToStr(c[i].1))
  }

  /** `f'{word.ljust(w)}: {str(count).rjust(n)}'`. */
  function Line(e: WordCount, wordWidth: nat, countWidth: nat): string {
    LJust(e.0, wordWidth) + ": " + RJust(NatToStr(e.1), countWidth)
  }

  function FailureLine(status: int): string {
    "Failed to retrieve the webpage. Status code: " + IntToStr(status)
  }

  /** The script: the lines it prints for a response with status
      `status` whose page holds the tokens `tokens`; `max()` of nothing
      raises `ValueError` when the page has no word. */
  function Report(status: int, tokens: seq<string>): Result<seq<string>> {
    if status != OK_STATUS then Ok([FailureLine(status)])
    else
      var top := Top(tokens);
      if top == [] then Err(ValueError(MaxOfEmpty))
      else
        var wordWidth := MaxLen(Words(top));
        var countWidth := MaxLen(CountStrings(top));
        Ok(seq(|top|, i requires 0 <= i < |top| => Line(top[i], wordWidth, countWidth)))
  }

  /** A line: the word left-justified to the word column's width, then
      ": ", then the count's decimal digits right-justified to the count
      column's width (`LJust` and `RJust` say where the spaces go); the
      digits read back as the count. */
  lemma LineSpec(e: WordCount, wordWidth: nat, countWidth: nat)
    requires |e.0| <= wordWidth && |NatToStr(e.1)| <= countWidth
    ensures var line, digits := Line(e, wordWidth, countWidth), NatToStr(e.1);
            && |line| == wordWidth + 2 + countWidth
            && line[..wordWidth] == LJust(e.0, wordWidth)
            && line[wordWidth..wordWidth + 2] == ": "
            && line[wordWidth + 2..] == RJust(digits, countWidth)
            && IsDecimal(digits) && DigitsValue(digits) == e.1
  {
    ThreeParts(LJust(e.0, wordWidth), ": ", RJust(NatToStr(e.1), countWidth));
    NatToStrRoundTrip(e.1);
  }

  lemma ThreeParts(a: string, b: string, c: string)
    ensures var s := a + b + c;
            && s[..|a|] == a && s[|a|..|a| + |b|] == b && s[|a| + |b|..] == c
  {
  }

  /** The width of the word column: the longest of the words. */
  function WordWidth(top: seq<WordCount>): (w: nat)
    requires top != []
    ensures forall i :: 0 <= i < |top| ==> |top[i].0| <= w
    ensures exists i :: 0 <= i < |top| && |top[i].0| == w
  {
    var m := MaxLen(Words(top));
    var k :| 0 <= k < |top| && |Words(top)[k]| == m;
    m
  }

  /** The width of the count column: the longest of the counts' digits. */
  function CountWidth(top: seq<WordCount>): (w: nat)
    requires top != []
    ensures forall i :: 0 <= i < |top| ==> |NatToStr(top[i].1)| <= w
    ensures exists i :: 0 <= i < |top| && |NatToStr(top[i].1)| == w
  {
    var m := MaxLen(CountStrings(top));
    var k :| 0 <= k < |top| && |CountStrings(top)[k]| == m;
    assert CountStrings(top)[k] == NatToStr(top[k].1);
    assert forall i :: 0 <= i < |top| ==> CountStrings(top)[i] == NatToStr(top[i].1);
    m
  }

  /** What the script prints. A failed request prints only the failure
      line. Otherwise a page without words raises, and a page with words
      prints one line per ranked word, at most 100: the first ones of
      the ranking, in order. */
  lemma ReportSpec(status: int, tokens: seq<string>)
    ensures status != OK_STATUS ==> Report(status, tokens) == Ok([FailureLine(status)])
    ensures status == OK_STATUS ==>
              (Report(status, tokens).Err? <==> tokens == [])
              && (tokens == [] ==> Report(status, tokens) == Err(ValueError(MaxOfEmpty)))
    ensures status == OK_STATUS && Report(status, tokens).Ok? ==>
              var lines, top := Report(status, tokens).value, Top(tokens);
              && |lines| == |top| == Min(NUM, |WordCounts(tokens)|)
              && top == Ranked(tokens)[..|top|]
  {
    if status == OK_STATUS {
      CountsNonEmpty(tokens);
      RankedSpec(tokens);
    }
  }

  /** There is something to count exactly when there are tokens. */
  lemma CountsNonEmpty(tokens: seq<string>)
    ensures WordCounts(tokens) != [] <==> tokens != []
  {
    var ws := Lowered(tokens);
    CounterWords(ws);
    if tokens != [] {
      assert ws[0] in ws;
      assert ws[0] in Words(WordCounts(tokens));
    }
  }

  /** The lines are aligned: each is its word's line, as `LineSpec` lays
      it out, in columns as wide as the longest word and the longest
      count shown, so all lines have the same length. */
  lemma ReportLayout(tokens: seq<string>)
    ensures Report(OK_STATUS, tokens).Ok? ==>
              var lines, top := Report(OK_STATUS, tokens).value, Top(tokens);
              && top != []
              && forall i :: 0 <= i < |lines| ==>
                   && lines[i] == Line(top[i], WordWidth(top), CountWidth(top))
                   && |lines[i]| == WordWidth(top) + 2 + CountWidth(top)
  {
    if Report(OK_STATUS, tokens).Ok? {
      var lines, top := Report(OK_STATUS, tokens).value, Top(tokens);
      forall i | 0 <= i < |lines|
        ensures lines[i] == Line(top[i], WordWidth(top), CountWidth(top))
        ensures |lines[i]| == WordWidth(top) + 2 + CountWidth(top)
      {
        LineSpec(top[i], WordWidth(top), CountWidth(top));
      }
    }
  }
}
