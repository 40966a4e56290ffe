/** The TF-IDF project's scraper for a conference year: every paper link
    of the listing page becomes a row with the paper's title, authors,
    abstract, PDF text (or `None`), PDF URL and date; no paper is skipped.
    After the shards are put together, the titles and then the abstracts
    of all papers are vectorized as one corpus each, every paper gets the
    keywords of its title and of its abstract (at most ten, scoring at
    least 0.05), and the PDF text column is dropped. */
module TfidfPipeline {
  import opened PyBase
  import opened PyStr
  import opened Sorting
  import opened Chunking
  import opened PdfText
  import opened Keywords
  import opened PaperInfo
  import opened Frames
  import opened Sharding

  /** Only links whose href holds this are papers. */
  const PAPER_MARK: string := "/paper/"

  /** The keys of a row: the frame's columns when there are rows. */
  const ROW_KEYS: seq<string> := ["Title", "Authors", "Abstract", "PDF Text", "PDF URL", "Publication date"]

  /** The columns of the frame of a shard that produced no row. */
  const EMPTY_COLUMNS: seq<string> := ["Title", "Authors", "Abstract", "PDF Text", "PDF_URL", "Publication_Date"]

  /** The two keyword columns `main` adds. */
  const TITLE_KEYWORDS: string := "TF-IDF given the whole Title"
  const ABSTRACT_KEYWORDS: string := "TF-IDF given the whole Abstract"

  /** The cell of the PDF text: the text, or `None` when it could not be
      extracted. */
  function TextCell(text: Option<string>): Cell {
    match text
    case Some(t) => StrCell(t)
    case None => NoneCell
  }

  /** The row dictionary of a paper and its PDF text. */
  function PaperRow(p: Paper, text: Option<string>): Row {
    [("Title", StrCell(p.title)), ("Authors", StrCell(p.authors)), ("Abstract", StrCell(p.summary)),
     ("PDF Text", TextCell(text)), ("PDF URL", StrCell(p.pdfUrl)),
     ("Publication date", StrCell(p.publicationDate))]
  }

  /** One pass of the loop of `process(chunk, base_url)` on the link
      `href`: no exception is caught here, and a PDF that cannot be read
      only gives a `None` text. */
  function TfidfStep(base: string, svc: Services, href: string): Result<Option<Row>> {
    if !Contains(href, PAPER_MARK) then Ok(None)
    else match ExtractPaperInfo(svc.page(DetailUrl(base, href)))
      case Err(e) => Err(e)
      case Ok(p) =>
        match svc.pdf(p.pdfUrl)
        case Err(e) => Err(e)
        case Ok(file) => Ok(Some(PaperRow(p, ExtractText(file, REFERENCES))))
  }

  function StepOf(base: string, svc: Services): Step {
    href => TfidfStep(base, svc, href)
  }

  /** `process(paper_links_chunks, base_url)`: the loop over the links,
      appending a row per paper and `continue`-ing past other links. */
  method Process(links: seq<string>, base: string, svc: Services) returns (r: Result<Frame>)
    ensures r == ProcessShard(links, StepOf(base, svc), EMPTY_COLUMNS)
  {
    var step := StepOf(base, svc);
    var paperData: seq<Row> := [];
    var i := 0;
    assert links[0..] == links;
    if FoldRows(links, step).Ok? {
      assert [] + FoldRows(links, step).value == FoldRows(links, step).value;
    }
    while i < |links|
      invariant 0 <= i <= |links|
      invariant FoldRows(links, step) == AndThen(Ok(paperData), FoldRows(links[i..], step))
    {
      var href := links[i];
      FoldRowsAt(links, i, step);
      AndThenOk(paperData, RowsOf(step(href)), FoldRows(links[i + 1..], step));
      assert step(href) == TfidfStep(base, svc, href);
      i := i + 1;
      if !Contains(href, PAPER_MARK) {
        assert paperData + [] == paperData;
        continue;
      }
      var info := ExtractPaperInfo(svc.page(DetailUrl(base, href)));
      if info.Err? {
        return Err(info.exc);
      }
      var p := info.value;
      var content := svc.pdf(p.pdfUrl);
      if content.Err? {
        return Err(content.exc);
      }
      var pdfText := ExtractTextFromPdf(content.value, REFERENCES);
      paperData := paperData + [PaperRow(p, pdfText)];
    }
    assert links[i..] == [];
    assert paperData + [] == paperData;
    if |paperData| == 0 {
      return Ok(Frame(EMPTY_COLUMNS, []));
    }
    return Ok(Frame(RowColumns(paperData), paperData));
  }

  /** What one link does: a link without "/paper/" is skipped without any
      fetch; a paper link raises the page's or the download's exception,
      and otherwise always gives its row, with `None` as the text of an
      unreadable PDF. */
  lemma TfidfStepSpec(base: string, svc: Services, href: string)
    ensures !Contains(href, PAPER_MARK) ==> TfidfStep(base, svc, href) == Ok(None)
    ensures Contains(href, PAPER_MARK) ==>
              var info := ExtractPaperInfo(svc.page(DetailUrl(base, href)));
              && (info.Err? ==> TfidfStep(base, svc, href) == Err(info.exc))
              && (info.Ok? && svc.pdf(info.value.pdfUrl).Err? ==>
                    TfidfStep(base, svc, href) == Err(svc.pdf(info.value.pdfUrl).exc))
              && (info.Ok? && svc.pdf(info.value.pdfUrl).Ok? ==>
                    TfidfStep(base, svc, href)
                    == Ok(Some(PaperRow(info.value, ExtractText(svc.pdf(info.value.pdfUrl).value, REFERENCES)))))
    ensures TfidfStep(base, svc, href).Ok? <==>
              !Contains(href, PAPER_MARK)
              || (ExtractPaperInfo(svc.page(DetailUrl(base, href))).Ok?
                  && svc.pdf(ExtractPaperInfo(svc.page(DetailUrl(base, href))).value.pdfUrl).Ok?)
  {
  }

  lemma RowKeysDistinct()
    ensures Distinct(ROW_KEYS)
  {
    // index 1 tells the keys apart within each group of equal first characters
    var firsts := ['T', 'A', 'A', 'P', 'P', 'P'];
    assert forall i :: 0 <= i < 6 ==> ROW_KEYS[i][0] == firsts[i];
    assert ROW_KEYS[1][1] != ROW_KEYS[2][1];
    assert ROW_KEYS[3][1] != ROW_KEYS[5][1] && ROW_KEYS[4][1] != ROW_KEYS[5][1];
    assert ROW_KEYS[3][4] != ROW_KEYS[4][4];
  }

  /** A row holds exactly the six keys, each once, with the paper's
      fields and, under "PDF Text", the text or `None`. */
  lemma PaperRowSpec(p: Paper, text: Option<string>)
    ensures var row := PaperRow(p, text);
            && Keys(row) == ROW_KEYS
            && Lookup(row, "Title") == StrCell(p.title)
            && Lookup(row, "Authors") == StrCell(p.authors)
            && Lookup(row, "Abstract") == StrCell(p.summary)
            && Lookup(row, "PDF Text") == (if text.Some? then StrCell(text.value) else NoneCell)
            && Lookup(row, "PDF URL") == StrCell(p.pdfUrl)
            && Lookup(row, "Publication date") == StrCell(p.publicationDate)
  {
    var row := PaperRow(p, text);
    RowKeysDistinct();
    assert Keys(row) == ROW_KEYS;
    LookupDistinct(row, 0);
    LookupDistinct(row, 1);
    LookupDistinct(row, 2);
    LookupDistinct(row, 3);
    LookupDistinct(row, 4);
    LookupDistinct(row, 5);
  }

  /** The shape every row of this pipeline has: the six keys, a text
      title and abstract, some value under "PDF Text", and no keyword
      cell. */
  predicate WellFormedRow(row: Row) {
    && Keys(row) == ROW_KEYS
    && Lookup(row, "Title").StrCell?
    && Lookup(row, "Abstract").StrCell?
    && (Lookup(row, "PDF Text").StrCell? || Lookup(row, "PDF Text").NoneCell?)
    && forall j :: 0 <= j < |row| ==> !row[j].1.KeywordCell?
  }

  lemma PaperRowWellFormed(p: Paper, text: Option<string>)
    ensures WellFormedRow(PaperRow(p, text))
  {
    PaperRowSpec(p, text);
    PaperRowPlain(p, text);
  }

  lemma PaperRowPlain(p: Paper, text: Option<string>)
    ensures forall j :: 0 <= j < |PaperRow(p, text)| ==> !PaperRow(p, text)[j].1.KeywordCell?
  {
  }

  lemma StepRowsWellFormed(base: string, svc: Services, href: string)
    ensures forall row :: row in RowsOf(TfidfStep(base, svc, href)) ==> WellFormedRow(row)
  {
    var r := TfidfStep(base, svc, href);
    if r.Ok? && r.value.Some? {
      TfidfStepSpec(base, svc, href);
      var info := ExtractPaperInfo(svc.page(DetailUrl(base, href)));
      var text := ExtractText(svc.pdf(info.value.pdfUrl).value, REFERENCES);
      assert r.value.value == PaperRow(info.value, text);
      PaperRowWellFormed(info.value, text);
      assert RowsOf(r) == [r.value.value];
    }
  }

  /** The number of paper links in a list. */
  function PaperCount(links: seq<string>): nat {
    if links == [] then 0
    else (if Contains(links[0], PAPER_MARK) then 1 else 0) + PaperCount(links[1..])
  }

  /** A shard that does not raise has exactly one row per paper link, in
      particular one for each paper whose PDF text is `None`. */
  lemma {:induction false} FoldRowsCount(links: seq<string>, base: string, svc: Services)
    ensures FoldRows(links, StepOf(base, svc)).Ok? ==>
              |FoldRows(links, StepOf(base, svc)).value| == PaperCount(links)
  {
    if links != [] {
      FoldRowsCount(links[1..], base, svc);
      TfidfStepSpec(base, svc, links[0]);
    }
  }

  /** Every row of a shard is well formed, the shard has one row per
      paper link, and its columns are the row keys, or the fixed empty
      schema when it has no row. */
  lemma ProcessShape(links: seq<string>, base: string, svc: Services)
    ensures var r := ProcessShard(links, StepOf(base, svc), EMPTY_COLUMNS);
            r.Ok? ==>
              && |r.value.rows| == PaperCount(links)
              && (forall k :: 0 <= k < |r.value.rows| ==> WellFormedRow(r.value.rows[k]))
              && (r.value.rows == [] ==> r.value.columns == EMPTY_COLUMNS)
              && (r.value.rows != [] ==> r.value.columns == ROW_KEYS)
  {
    var step := StepOf(base, svc);
    var f := FoldRows(links, step);
    if f.Ok? {
      FoldRowsCount(links, base, svc);
      FoldRowsWellFormed(links, base, svc);
      RowKeysDistinct();
      ToFrameSpec(f.value, EMPTY_COLUMNS, ROW_KEYS);
    }
  }

  lemma FoldRowsWellFormed(links: seq<string>, base: string, svc: Services)
    requires FoldRows(links, StepOf(base, svc)).Ok?
    ensures forall k :: 0 <= k < |FoldRows(links, StepOf(base, svc)).value| ==>
              WellFormedRow(FoldRows(links, StepOf(base, svc)).value[k])
  {
    var step := StepOf(base, svc);
    forall k | 0 <= k < |FoldRows(links, step).value|
      ensures WellFormedRow(FoldRows(links, step).value[k])
    {
      FoldRowsFrom(links, step, k);
      var i :| 0 <= i < |links| && FoldRows(links, step).value[k] in RowsOf(step(links[i]));
      StepRowsWellFormed(base, svc, links[i]);
    }
  }

  /** The two keyword columns are new: no row key, no name of the empty
      schema, and not each other. */
  lemma KeywordColumnsFresh()
    ensures TITLE_KEYWORDS !in ROW_KEYS && TITLE_KEYWORDS !in EMPTY_COLUMNS
    ensures ABSTRACT_KEYWORDS !in ROW_KEYS && ABSTRACT_KEYWORDS !in EMPTY_COLUMNS
    ensures TITLE_KEYWORDS != ABSTRACT_KEYWORDS
  {
    assert forall i :: 0 <= i < 6 ==> |ROW_KEYS[i]| < 20 && |EMPTY_COLUMNS[i]| < 20;
    assert TITLE_KEYWORDS[23] != ABSTRACT_KEYWORDS[23];
  }

  /** The frame `main` gets back from the pool: its columns are row keys
      or empty-schema names, each once, always including "Title",
      "Abstract" and "PDF Text" but neither keyword column; it has one
      well-formed row per paper link among the first `MAX_NUM_PAPER`. */
  lemma RunFrame(links: seq<string>, numShards: int, sanity: bool, base: string, svc: Services)
    ensures var r := Run(links, numShards, sanity, StepOf(base, svc), EMPTY_COLUMNS);
            r.Ok? ==>
              && Distinct(r.value.columns)
              && (forall c :: c in r.value.columns ==> c in ROW_KEYS || c in EMPTY_COLUMNS)
              && "Title" in r.value.columns && "Abstract" in r.value.columns && "PDF Text" in r.value.columns
              && TITLE_KEYWORDS !in r.value.columns && ABSTRACT_KEYWORDS !in r.value.columns
              && |r.value.rows| == PaperCount(Take(links, MAX_NUM_PAPER))
              && forall k :: 0 <= k < |r.value.rows| ==> WellFormedRow(r.value.rows[k])
  {
    var step := StepOf(base, svc);
    var r := Run(links, numShards, sanity, step, EMPTY_COLUMNS);
    if r.Ok? {
      var kept := Take(links, MAX_NUM_PAPER);
      var chunks := Chunkify(kept, numShards).value;
      var frames := MapShards(chunks, step, EMPTY_COLUMNS).value;
      MapShardsEach(chunks, step, EMPTY_COLUMNS);
      ConcatSpec(frames);
      forall c | c in r.value.columns
        ensures c in ROW_KEYS || c in EMPTY_COLUMNS
      {
        var i :| 0 <= i < |frames| && c in frames[i].columns;
        ProcessShape(chunks[i], base, svc);
      }
      ProcessShape(chunks[0], base, svc);
      assert "Title" in frames[0].columns && "Abstract" in frames[0].columns && "PDF Text" in frames[0].columns;
      KeywordColumnsFresh();
      RunEdges(links, numShards, sanity, step, EMPTY_COLUMNS);
      RunIsFold(links, numShards, sanity, step, EMPTY_COLUMNS);
      FoldRowsCount(kept, base, svc);
      FoldRowsWellFormed(kept, base, svc);
    }
  }

  /** No cell of the frame is a keyword cell. */
  predicate Plain(f: Frame) {
    forall k :: 0 <= k < |f.rows| ==> forall j :: 0 <= j < |f.rows[k]| ==> !f.rows[k][j].1.KeywordCell?
  }

  lemma PlainColumn(f: Frame, c: string)
    requires Plain(f)
    ensures forall i :: 0 <= i < |ColumnOf(f, c)| ==> !ColumnOf(f, c)[i].KeywordCell?
  {
    forall i | 0 <= i < |ColumnOf(f, c)|
      ensures !ColumnOf(f, c)[i].KeywordCell?
    {
      var cell := Lookup(f.rows[i], c);
      if cell != Missing {
        var j :| 0 <= j < |f.rows[i]| && f.rows[i][j] == (c, cell);
      }
    }
  }

  /** `astype(str).tolist()` of a column without keyword cells. */
  function AsStrList(col: seq<Cell>): (r: seq<string>)
    requires forall i :: 0 <= i < |col| ==> !col[i].KeywordCell?
    ensures |r| == |col|
    ensures forall i :: 0 <= i < |col| && col[i].StrCell? ==> r[i] == col[i].s
  {
    seq(|col|, i requires 0 <= i < |col| => AsStr(col[i]))
  }

  /** `papers_df[c].astype(str).tolist()`. */
  function TextColumn(f: Frame, c: string): seq<string>
    requires Plain(f)
  {
    PlainColumn(f, c);
    AsStrList(ColumnOf(f, c))
  }

  /** A frame without rows gives an empty list of titles, which the
      vectorizer refuses: `main` cannot add keywords to a run that found
      no paper. */
  lemma NoPapersNoKeywords(f: Frame, c: string, vectorize: Vectorizer)
    requires Plain(f) && f.rows == []
    ensures CalculateTfidfDocs(List(TextColumn(f, c)), vectorize) == Err(ValueError(NoValidWords))
  {
    assert TextColumn(f, c) == [];
    EmptyCorpusRaises(vectorize);
  }

  /** The keyword loop of `main`: for each dictionary, its top `TOP_K`
      items with a score of at least 0.05, in score order. */
  method SelectKeywords(dicts: seq<seq<Entry>>) returns (keyWordsList: seq<seq<Entry>>)
    ensures |keyWordsList| == |dicts|
    ensures forall i :: 0 <= i < |dicts| ==> keyWordsList[i] == Thresholded(dicts[i], TOP_K)
  {
    keyWordsList := [];
    for i := 0 to |dicts|
      invariant |keyWordsList| == i
      invariant forall j :: 0 <= j < i ==> keyWordsList[j] == Thresholded(dicts[j], TOP_K)
    {
      var keyWords := TopK(dicts[i], TOP_K);
      keyWords := AtLeast(keyWords, MIN_SCORE);
      keyWordsList := keyWordsList + [keyWords];
    }
  }

  /** The column of keyword dictionaries assigned to the frame. */
  function KeywordColumn(keyWordsList: seq<seq<Entry>>): (col: seq<Cell>)
    ensures |col| == |keyWordsList|
  {
    seq(|keyWordsList|, i requires 0 <= i < |keyWordsList| => KeywordCell(keyWordsList[i]))
  }

  function Thresholds(dicts: seq<seq<Entry>>): (r: seq<seq<Entry>>)
    ensures |r| == |dicts|
  {
    seq(|dicts|, i requires 0 <= i < |dicts| => Thresholded(dicts[i], TOP_K))
  }

  /** One keyword block of `main`: the column `source` as text, its
      TF-IDF over all rows (which may raise), the keywords of each row,
      and their assignment as the new column `target`. */
  method AddKeywordColumn(papers: Table, source: string, target: string, vectorize: Vectorizer)
    returns (r: Result<seq<seq<Entry>>>)
    requires papers.Valid() && source in papers.columns && target !in papers.columns
    requires forall i :: 0 <= i < |papers.cells[source]| ==> !papers.cells[source][i].KeywordCell?
    modifies papers
    ensures var docs := CalculateTfidfDocs(List(AsStrList(old(papers.cells[source]))), vectorize);
            && (docs.Err? ==> r == Err(docs.exc) && papers.columns == old(papers.columns)
                              && papers.cells == old(papers.cells))
            && (docs.Ok? ==> r == docs && papers.columns == old(papers.columns) + [target]
                             && papers.cells == old(papers.cells)[target := KeywordColumn(Thresholds(docs.value))])
    ensures papers.Valid() && papers.height == old(papers.height)
  {
    var column := papers.Get(source);
    var texts := AsStrList(column.value);
    var wordTfidf := CalculateTfidfDocs(List(texts), vectorize);
    if wordTfidf.Err? {
      return Err(wordTfidf.exc);
    }
    CalculateTfidfDocsSpec(List(texts), vectorize);
    var keyWordsList := SelectKeywords(wordTfidf.value);
    assert keyWordsList == Thresholds(wordTfidf.value);
    var _ := papers.SetColumn(target, KeywordColumn(keyWordsList));
    return wordTfidf;
  }

  /** The columns of the frame other than "PDF Text", as they came. */
  function Kept(f: Frame): map<string, seq<Cell>> {
    map c | c in Without(f.columns, "PDF Text") :: ColumnOf(f, c)
  }

  /** `main` from the listing page on. A failed fetch of the listing
      raises; so does the sharded run, and so does vectorizing the
      titles or the abstracts when they have no valid word. Otherwise the
      result is the run's frame without "PDF Text" and with the two
      keyword columns at the end, row `i` holding the keywords of paper
      `i`'s title and abstract among all titles and all abstracts. */
  method Scrape(year: int, listing: Result<seq<string>>, numShards: int, sanity: bool, svc: Services)
    returns (r: Result<Table>)
    ensures listing.Err? ==> r == Err(listing.exc)
    ensures listing.Ok? && Run(listing.value, numShards, sanity, StepOf(BaseUrl(year), svc), EMPTY_COLUMNS).Ok?
            && Run(listing.value, numShards, sanity, StepOf(BaseUrl(year), svc), EMPTY_COLUMNS).value.rows == []
            ==> r == Err(ValueError(NoValidWords))
    ensures listing.Ok? ==>
              var run := Run(listing.value, numShards, sanity, StepOf(BaseUrl(year), svc), EMPTY_COLUMNS);
              && (run.Err? ==> r == Err(run.exc))
              && (run.Ok? ==>
                    var f := run.value;
                    && Plain(f)
                    && var titles := CalculateTfidfDocs(List(TextColumn(f, "Title")), svc.vectorize);
                       var abstracts := CalculateTfidfDocs(List(TextColumn(f, "Abstract")), svc.vectorize);
                       && (titles.Err? ==> r == Err(titles.exc))
                       && (titles.Ok? && abstracts.Err? ==> r == Err(abstracts.exc))
                       && (titles.Ok? && abstracts.Ok? ==>
                             && r.Ok? && fresh(r.value) && r.value.Valid()
                             && r.value.height == |f.rows|
                             && r.value.columns == Without(f.columns, "PDF Text") + [TITLE_KEYWORDS, ABSTRACT_KEYWORDS]
                             && r.value.cells == Kept(f)[TITLE_KEYWORDS := KeywordColumn(Thresholds(titles.value))]
                                                        [ABSTRACT_KEYWORDS := KeywordColumn(Thresholds(abstracts.value))]))
  {
    if listing.Err? {
      return Err(listing.exc);
    }
    var base := BaseUrl(year);
    var run := Run(listing.value, numShards, sanity, StepOf(base, svc), EMPTY_COLUMNS);
    if run.Err? {
      return Err(run.exc);
    }
    var f := run.value;
    RunFrame(listing.value, numShards, sanity, base, svc);
    var papers := new Table(f);

    PlainColumn(f, "Title");
    PlainColumn(f, "Abstract");
    if f.rows == [] {
      NoPapersNoKeywords(f, "Title", svc.vectorize);
    }
    ghost var before := papers.cells;
    var titles := AddKeywordColumn(papers, "Title", TITLE_KEYWORDS, svc.vectorize);
    if titles.Err? {
      return Err(titles.exc);
    }
    ghost var titleCells := KeywordColumn(Thresholds(titles.value));
    var abstracts := AddKeywordColumn(papers, "Abstract", ABSTRACT_KEYWORDS, svc.vectorize);
    if abstracts.Err? {
      return Err(abstracts.exc);
    }
    assert papers.columns == f.columns + [TITLE_KEYWORDS] + [ABSTRACT_KEYWORDS];

    var del := papers.DeleteColumn("PDF Text");
    AppendTwo(f.columns, TITLE_KEYWORDS, ABSTRACT_KEYWORDS);
    WithoutAppend(f.columns, "PDF Text", [TITLE_KEYWORDS, ABSTRACT_KEYWORDS]);
    CellsAfter(f, before, titleCells, KeywordColumn(Thresholds(abstracts.value)));
    return Ok(papers);
  }

  /** The cells after the two assignments and the deletion are the kept
      columns and the two keyword columns. */
  lemma CellsAfter(f: Frame, before: map<string, seq<Cell>>, t: seq<Cell>, a: seq<Cell>)
    requires forall c :: c in before <==> c in f.columns
    requires forall c :: c in f.columns ==> before[c] == ColumnOf(f, c)
    ensures before[TITLE_KEYWORDS := t][ABSTRACT_KEYWORDS := a] - {"PDF Text"}
            == Kept(f)[TITLE_KEYWORDS := t][ABSTRACT_KEYWORDS := a]
  {
    var lhs := before[TITLE_KEYWORDS := t][ABSTRACT_KEYWORDS := a] - {"PDF Text"};
    var rhs := Kept(f)[TITLE_KEYWORDS := t][ABSTRACT_KEYWORDS := a];
    assert forall c :: c in lhs <==> c in rhs;
    assert forall c :: c in lhs ==> lhs[c] == rhs[c];
  }

  lemma AppendTwo(s: seq<string>, a: string, b: string)
    ensures s + [a] + [b] == s + [a, b]
  {
  }
}
