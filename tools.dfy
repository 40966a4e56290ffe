/** The stand-alone scraper for one conference year: every paper link of
    the listing page becomes a row with the paper's title, authors,
    abstract, PDF URL and date, and the top TF-IDF keywords of its
    abstract and of its full text. A paper whose keywords cannot be
    computed is skipped; a paper whose PDF text could not be extracted
    makes its whole shard fail. */
module ToolsPipeline {
  import opened PyBase
  import opened PyStr
  import opened Sorting
  import opened Chunking
  import opened PdfText
  import opened Keywords
  import opened PaperInfo
  import opened Frames
  import opened Sharding

  const YEAR: int := 2023

  /** Only links whose href holds this are papers. */
  const PAPER_MARK: string := "/paper/"

  /** The keys of a row: the frame's columns when there are rows. */
  const ROW_KEYS: seq<string> := ["Title", "Authors", "Abstract", "PDF URL", "Publication date",
                                  "TF-IDF given Abstract", "TF-IDF given FullText"]

  /** The columns of the frame of a shard that produced no row. */
  const EMPTY_COLUMNS: seq<string> := ["Title", "Authors", "Abstract", "PDF_URL", "Publication_Date",
                                       "Key_Words_in_Abstract", "Key_Words_in_Paper"]

  function BaseUrl2023(): string {
    BaseUrl(YEAR)
  }

  /** The row dictionary of a paper and its two keyword lists. */
  function PaperRow(p: Paper, abstractWords: seq<string>, paperWords: seq<string>): Row {
    [("Title", StrCell(p.title)), ("Authors", StrCell(p.authors)), ("Abstract", StrCell(p.summary)),
     ("PDF URL", StrCell(p.pdfUrl)), ("Publication date", StrCell(p.publicationDate)),
     ("TF-IDF given Abstract", StrCell(Join(", ", abstractWords))),
     ("TF-IDF given FullText", StrCell(Join(", ", paperWords)))]
  }

  /** One pass of the loop of `process` on the link `href`. A
      `ValueError` from either keyword computation is caught and skips
      the paper; any other exception escapes. */
  function ToolsStep(svc: Services, href: string): Result<Option<Row>> {
    if !Contains(href, PAPER_MARK) then Ok(None)
    else match ExtractPaperInfo(svc.page(DetailUrl(BaseUrl2023(), href)))
      case Err(e) => Err(e)
      case Ok(p) =>
        match CalculateTfidf(Some(p.summary), svc.vectorize)
        case Err(e) => if e.ValueError? then Ok(None) else Err(e)
        case Ok(abstractScores) =>
          match svc.pdf(p.pdfUrl)
          case Err(e) => Err(e)
          case Ok(file) =>
            match CalculateTfidf(ExtractText(file, REFERENCES), svc.vectorize)
            case Err(e) => if e.ValueError? then Ok(None) else Err(e)
            case Ok(paperScores) =>
              Ok(Some(PaperRow(p, TopWords(abstractScores, TOP_K), TopWords(paperScores, TOP_K))))
  }

  function StepOf(svc: Services): Step {
    href => ToolsStep(svc, href)
  }

  /** `process(paper_links_chunks)`: the loop over the links, appending
      a row per paper and `continue`-ing past skipped links. */
  method Process(links: seq<string>, svc: Services) returns (r: Result<Frame>)
    ensures r == ProcessShard(links, StepOf(svc), EMPTY_COLUMNS)
  {
    var step := StepOf(svc);
    var paperData: seq<Row> := [];
    var i := 0;
    assert links[0..] == links;
    if FoldRows(links, step).Ok? {
      assert [] + FoldRows(links, step).value == FoldRows(links, step).value;
    }
    while i < |links|
      invariant 0 <= i <= |links|
      invariant FoldRows(links, step) == AndThen(Ok(paperData), FoldRows(links[i..], step))
    {
      var href := links[i];
      FoldRowsAt(links, i, step);
      AndThenOk(paperData, RowsOf(step(href)), FoldRows(links[i + 1..], step));
      assert step(href) == ToolsStep(svc, href);
      i := i + 1;
      if !Contains(href, PAPER_MARK) {
        assert paperData + [] == paperData;
        continue;
      }
      var info := ExtractPaperInfo(svc.page(DetailUrl(BaseUrl2023(), href)));
      if info.Err? {
        return Err(info.exc);
      }
      var p := info.value;
      var abstractScores := CalculateTfidf(Some(p.summary), svc.vectorize);
      if abstractScores.Err? {
        if abstractScores.exc.ValueError? {
          assert paperData + [] == paperData;
          continue;
        }
        return Err(abstractScores.exc);
      }
      var abstractWords := TopWords(abstractScores.value, TOP_K);
      var content := svc.pdf(p.pdfUrl);
      if content.Err? {
        return Err(content.exc);
      }
      var pdfText := ExtractTextFromPdf(content.value, REFERENCES);
      var paperScores := CalculateTfidf(pdfText, svc.vectorize);
      if paperScores.Err? {
        if paperScores.exc.ValueError? {
          assert paperData + [] == paperData;
          continue;
        }
        return Err(paperScores.exc);
      }
      var paperWords := TopWords(paperScores.value, TOP_K);
      paperData := paperData + [PaperRow(p, abstractWords, paperWords)];
    }
    assert links[i..] == [];
    assert paperData + [] == paperData;
    if |paperData| == 0 {
      return Ok(Frame(EMPTY_COLUMNS, []));
    }
    return Ok(Frame(RowColumns(paperData), paperData));
  }

  /** `main` from the listing page on: a failed fetch of the listing
      raises; otherwise its links go through the sharded run. */
  function Scrape(listing: Result<seq<string>>, numShards: int, sanity: bool, svc: Services): Result<Frame> {
    match listing
    case Err(e) => Err(e)
    case Ok(links) => Run(links, numShards, sanity, StepOf(svc), EMPTY_COLUMNS)
  }

  /** What one link does, step by step. A link without "/paper/" is
      skipped without any fetch. A failed page request or lookup raises.
      A paper whose abstract gives no keywords is skipped whatever its
      PDF. A failed PDF download raises. A PDF text of `None` (unreadable
      PDF) raises `AttributeError`; a text that gives no keywords skips
      the paper. A paper that passes every step gives its row, and a row
      is made only then. */
  lemma ToolsStepSpec(svc: Services, href: string)
    ensures !Contains(href, PAPER_MARK) ==> ToolsStep(svc, href) == Ok(None)
    ensures Contains(href, PAPER_MARK) ==>
              var info := ExtractPaperInfo(svc.page(DetailUrl(BaseUrl2023(), href)));
              && (info.Err? ==> ToolsStep(svc, href) == Err(info.exc))
              && (info.Ok? ==>
                    var abstractScores := CalculateTfidf(Some(info.value.summary), svc.vectorize);
                    && (abstractScores.Err? ==> ToolsStep(svc, href) == Ok(None))
                    && (abstractScores.Ok? ==>
                          var pdf := svc.pdf(info.value.pdfUrl);
                          && (pdf.Err? ==> ToolsStep(svc, href) == Err(pdf.exc))
                          && (pdf.Ok? ==>
                                var text := ExtractText(pdf.value, REFERENCES);
                                var paperScores := CalculateTfidf(text, svc.vectorize);
                                && (text.None? ==> ToolsStep(svc, href) == Err(AttributeError))
                                && (text.Some? && paperScores.Err? ==> ToolsStep(svc, href) == Ok(None))
                                && (paperScores.Ok? ==>
                                      ToolsStep(svc, href)
                                      == Ok(Some(PaperRow(info.value, TopWords(abstractScores.value, TOP_K),
                                                          TopWords(paperScores.value, TOP_K))))))))
    ensures ToolsStep(svc, href).Ok? && ToolsStep(svc, href).value.Some? ==>
              var info := ExtractPaperInfo(svc.page(DetailUrl(BaseUrl2023(), href)));
              var abstractScores := CalculateTfidf(Some(info.value.summary), svc.vectorize);
              var paperScores := CalculateTfidf(ExtractText(svc.pdf(info.value.pdfUrl).value, REFERENCES), svc.vectorize);
              && Contains(href, PAPER_MARK) && info.Ok? && abstractScores.Ok?
              && svc.pdf(info.value.pdfUrl).Ok? && paperScores.Ok?
              && ToolsStep(svc, href).value.value
                 == PaperRow(info.value, TopWords(abstractScores.value, TOP_K), TopWords(paperScores.value, TOP_K))
  {
    ToolsStepBranches(svc, href);
  }

  /** The outcome of each branch of the step, as the code takes them. */
  lemma ToolsStepBranches(svc: Services, href: string)
    ensures !Contains(href, PAPER_MARK) ==> ToolsStep(svc, href) == Ok(None)
    ensures Contains(href, PAPER_MARK) ==>
              var info := ExtractPaperInfo(svc.page(DetailUrl(BaseUrl2023(), href)));
              && (info.Err? ==> ToolsStep(svc, href) == Err(info.exc))
              && (info.Ok? ==>
                    var abstractScores := CalculateTfidf(Some(info.value.summary), svc.vectorize);
                    && (abstractScores.Err? ==> ToolsStep(svc, href) == Ok(None))
                    && (abstractScores.Ok? ==>
                          var pdf := svc.pdf(info.value.pdfUrl);
                          && (pdf.Err? ==> ToolsStep(svc, href) == Err(pdf.exc))
                          && (pdf.Ok? ==>
                                var text := ExtractText(pdf.value, REFERENCES);
                                var paperScores := CalculateTfidf(text, svc.vectorize);
                                && (text.None? ==> ToolsStep(svc, href) == Err(AttributeError))
                                && (text.Some? && paperScores.Err? ==> ToolsStep(svc, href) == Ok(None))
                                && (paperScores.Ok? ==>
                                      ToolsStep(svc, href)
                                      == Ok(Some(PaperRow(info.value, TopWords(abstractScores.value, TOP_K),
                                                          TopWords(paperScores.value, TOP_K))))))))
  {
    if Contains(href, PAPER_MARK) {
      var info := ExtractPaperInfo(svc.page(DetailUrl(BaseUrl2023(), href)));
      if info.Ok? {
        var abstractScores := CalculateTfidf(Some(info.value.summary), svc.vectorize);
        CalculateTfidfSpec(Some(info.value.summary), svc.vectorize);
        if abstractScores.Ok? {
          var pdf := svc.pdf(info.value.pdfUrl);
          if pdf.Ok? {
            var text := ExtractText(pdf.value, REFERENCES);
            if text.None? {
              CalculateTfidfSpec(text, svc.vectorize);
            }
          }
        }
      }
    }
  }

  /** A `ValueError` from either keyword computation skips the paper with
      no partial row; no other exception is caught. */
  lemma KeywordErrorSkips(svc: Services, href: string)
    ensures ToolsStep(svc, href) == Ok(None) <==>
              || !Contains(href, PAPER_MARK)
              || var info := ExtractPaperInfo(svc.page(DetailUrl(BaseUrl2023(), href)));
                 && info.Ok?
                 && var abstractScores := CalculateTfidf(Some(info.value.summary), svc.vectorize);
                    || (abstractScores.Err? && abstractScores.exc.ValueError?)
                    || (&& abstractScores.Ok?
                        && svc.pdf(info.value.pdfUrl).Ok?
                        && var paperScores := CalculateTfidf(ExtractText(svc.pdf(info.value.pdfUrl).value, REFERENCES), svc.vectorize);
                           paperScores.Err? && paperScores.exc.ValueError?)
  {
    if Contains(href, PAPER_MARK) {
      var info := ExtractPaperInfo(svc.page(DetailUrl(BaseUrl2023(), href)));
      if info.Ok? {
        CalculateTfidfSpec(Some(info.value.summary), svc.vectorize);
        var pdf := svc.pdf(info.value.pdfUrl);
        if pdf.Ok? {
          CalculateTfidfSpec(ExtractText(pdf.value, REFERENCES), svc.vectorize);
        }
      }
    }
  }

  /** A row holds exactly the seven keys, each once, with the paper's
      fields and the keyword lists joined by ", ". */
  lemma PaperRowSpec(p: Paper, abstractWords: seq<string>, paperWords: seq<string>)
    ensures var row := PaperRow(p, abstractWords, paperWords);
            && Keys(row) == ROW_KEYS
            && Lookup(row, "Title") == StrCell(p.title)
            && Lookup(row, "Authors") == StrCell(p.authors)
            && Lookup(row, "Abstract") == StrCell(p.summary)
            && Lookup(row, "PDF URL") == StrCell(p.pdfUrl)
            && Lookup(row, "Publication date") == StrCell(p.publicationDate)
            && Lookup(row, "TF-IDF given Abstract") == StrCell(Join(", ", abstractWords))
            && Lookup(row, "TF-IDF given FullText") == StrCell(Join(", ", paperWords))
  {
    var row := PaperRow(p, abstractWords, paperWords);
    RowKeysDistinct();
    assert Keys(row) == ROW_KEYS;
    LookupDistinct(row, 0);
    LookupDistinct(row, 1);
    LookupDistinct(row, 2);
    LookupDistinct(row, 3);
    LookupDistinct(row, 4);
    LookupDistinct(row, 5);
    LookupDistinct(row, 6);
  }

  lemma RowKeysDistinct()
    ensures Distinct(ROW_KEYS)
  {
    // the first characters tell all keys apart but the two "TF-IDF" ones,
    // and those differ at position 13
    var firsts := ['T', 'A', 'A', 'P', 'P', 'T', 'T'];
    assert forall i :: 0 <= i < 7 ==> ROW_KEYS[i][0] == firsts[i];
    assert ROW_KEYS[1][1] != ROW_KEYS[2][1];
    assert ROW_KEYS[3][1] != ROW_KEYS[4][1];
    assert ROW_KEYS[0][1] != ROW_KEYS[5][1] && ROW_KEYS[0][1] != ROW_KEYS[6][1];
    assert ROW_KEYS[5][13] != ROW_KEYS[6][13];
  }

  /** Every row of a shard has the seven row keys, and the shard has at
      most one row per link; its columns are the row keys, or the fixed
      empty schema when it has no row. */
  lemma ProcessShape(links: seq<string>, svc: Services)
    ensures var r := ProcessShard(links, StepOf(svc), EMPTY_COLUMNS);
            r.Ok? ==>
              && |r.value.rows| <= |links|
              && (forall k :: 0 <= k < |r.value.rows| ==> Keys(r.value.rows[k]) == ROW_KEYS)
              && (r.value.rows == [] ==> r.value.columns == EMPTY_COLUMNS)
              && (r.value.rows != [] ==> r.value.columns == ROW_KEYS)
  {
    var step := StepOf(svc);
    var f := FoldRows(links, step);
    if f.Ok? {
      FoldRowsCount(links, svc);
      FoldRowsKeys(links, svc);
      RowKeysDistinct();
      ToFrameSpec(f.value, EMPTY_COLUMNS, ROW_KEYS);
    }
  }

  /** At most one row per link. */
  lemma FoldRowsCount(links: seq<string>, svc: Services)
    requires FoldRows(links, StepOf(svc)).Ok?
    ensures |FoldRows(links, StepOf(svc)).value| <= |links|
  {
    var step := StepOf(svc);
    FoldRowsSpec(links, step);
    FlattenSmall(seq(|links|, i requires 0 <= i < |links| => RowsOf(step(links[i]))));
  }

  lemma FoldRowsKeys(links: seq<string>, svc: Services)
    requires FoldRows(links, StepOf(svc)).Ok?
    ensures forall k :: 0 <= k < |FoldRows(links, StepOf(svc)).value| ==>
              Keys(FoldRows(links, StepOf(svc)).value[k]) == ROW_KEYS
  {
    var step := StepOf(svc);
    forall k | 0 <= k < |FoldRows(links, step).value|
      ensures Keys(FoldRows(links, step).value[k]) == ROW_KEYS
    {
      FoldRowsFrom(links, step, k);
      var i :| 0 <= i < |links| && FoldRows(links, step).value[k] in RowsOf(step(links[i]));
      StepRowKeys(svc, links[i]);
    }
  }

  lemma StepRowKeys(svc: Services, href: string)
    ensures forall row :: row in RowsOf(ToolsStep(svc, href)) ==> Keys(row) == ROW_KEYS
  {
    var r := ToolsStep(svc, href);
    if r.Ok? && r.value.Some? {
      ToolsStepSpec(svc, href);
      var info := ExtractPaperInfo(svc.page(DetailUrl(BaseUrl2023(), href)));
      var abstractScores := CalculateTfidf(Some(info.value.summary), svc.vectorize);
      var paperScores := CalculateTfidf(ExtractText(svc.pdf(info.value.pdfUrl).value, REFERENCES), svc.vectorize);
      PaperRowSpec(info.value, TopWords(abstractScores.value, TOP_K), TopWords(paperScores.value, TOP_K));
    }
  }

  /** A link without "/paper/" adds nothing wherever it stands. */
  lemma NonPaperLinkIgnored(before: seq<string>, href: string, after: seq<string>, svc: Services)
    requires !Contains(href, PAPER_MARK)
    ensures FoldRows(before + [href] + after, StepOf(svc)) == FoldRows(before + after, StepOf(svc))
  {
    var step := StepOf(svc);
    FoldRowsAppend(before + [href], after, step);
    FoldRowsAppend(before, [href], step);
    FoldRowsAppend(before, after, step);
    assert FoldRows([href], step) == Ok([]) by {
      assert [href][1..] == [];
    }
    var x := FoldRows(before, step);
    if x.Ok? {
      assert x.value + [] == x.value;
    }
  }

  /** With a positive shard count and a non-empty listing, `main`'s
      frame holds exactly the rows one `process` over the first 10000
      links would give, in link order. */
  lemma ScrapeIsOneProcess(links: seq<string>, numShards: int, sanity: bool, svc: Services)
    requires numShards >= 1 && links != []
    ensures var all := ProcessShard(Take(links, MAX_NUM_PAPER), StepOf(svc), EMPTY_COLUMNS);
            var r := Scrape(Ok(links), numShards, sanity, svc);
            && (all.Err? ==> r == Err(all.exc))
            && (all.Ok? ==> r.Ok? && r.value.rows == all.value.rows)
  {
    RunIsFold(links, numShards, sanity, StepOf(svc), EMPTY_COLUMNS);
  }

  /** A run in which one shard found no paper and another found some has
      both spellings of the PDF URL column, "PDF URL" from the rows and
      "PDF_URL" from the empty schema. */
  lemma ScrapeMixesSpellings(links: seq<string>, numShards: int, sanity: bool, svc: Services, i: nat, j: nat)
    requires Scrape(Ok(links), numShards, sanity, svc).Ok?
    requires Chunkify(Take(links, MAX_NUM_PAPER), numShards).Ok?
    requires var chunks := Chunkify(Take(links, MAX_NUM_PAPER), numShards).value;
             && i < |chunks| && j < |chunks|
             && ProcessShard(chunks[i], StepOf(svc), EMPTY_COLUMNS).Ok?
             && ProcessShard(chunks[i], StepOf(svc), EMPTY_COLUMNS).value.rows == []
             && ProcessShard(chunks[j], StepOf(svc), EMPTY_COLUMNS).Ok?
             && ProcessShard(chunks[j], StepOf(svc), EMPTY_COLUMNS).value.rows != []
    ensures var cols := Scrape(Ok(links), numShards, sanity, svc).value.columns;
            "PDF URL" in cols && "PDF_URL" in cols
  {
    var step := StepOf(svc);
    var chunks := Chunkify(Take(links, MAX_NUM_PAPER), numShards).value;
    RunShardColumns(links, numShards, sanity, step, EMPTY_COLUMNS, i);
    RunShardColumns(links, numShards, sanity, step, EMPTY_COLUMNS, j);
    ShardSpelling(chunks[i], svc);
    ShardSpelling(chunks[j], svc);
  }

  /** A shard without rows names the column "PDF_URL", one with rows
      "PDF URL". */
  lemma ShardSpelling(links: seq<string>, svc: Services)
    ensures var r := ProcessShard(links, StepOf(svc), EMPTY_COLUMNS);
            && (r.Ok? && r.value.rows == [] ==> "PDF_URL" in r.value.columns)
            && (r.Ok? && r.value.rows != [] ==> "PDF URL" in r.value.columns)
  {
    ProcessShape(links, svc);
    assert EMPTY_COLUMNS[3] == "PDF_URL";
    assert ROW_KEYS[3] == "PDF URL";
  }

  /** The columns of `main`'s frame are distinct, and each is a row key
      or a name of the empty schema. */
  lemma ScrapeColumns(links: seq<string>, numShards: int, sanity: bool, svc: Services)
    ensures var r := Scrape(Ok(links), numShards, sanity, svc);
            r.Ok? ==> Distinct(r.value.columns)
                      && forall c :: c in r.value.columns ==> c in ROW_KEYS || c in EMPTY_COLUMNS
  {
    var r := Scrape(Ok(links), numShards, sanity, svc);
    if r.Ok? {
      var step := StepOf(svc);
      var chunks := Chunkify(Take(links, MAX_NUM_PAPER), numShards).value;
      var frames := MapShards(chunks, step, EMPTY_COLUMNS).value;
      MapShardsEach(chunks, step, EMPTY_COLUMNS);
      ConcatSpec(frames);
      forall c | c in r.value.columns
        ensures c in ROW_KEYS || c in EMPTY_COLUMNS
      {
        var i :| 0 <= i < |frames| && c in frames[i].columns;
        ProcessShape(chunks[i], svc);
      }
    }
  }
}
