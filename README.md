# NeurIPS paper scraper — a Dafny model of its pipeline rules

The scraper reads a year's NeurIPS listing page and makes one record per
paper link. Each record holds the title, the authors, the abstract, the PDF
URL, the publication date and TF-IDF keywords. The model covers the
deterministic rules that remain once the network, the HTML parser, the PDF
library, scikit-learn and pandas are replaced by their results:

- `Chunking`: `chunkify` cuts the link list into contiguous shards of
  `ceil(len / n)`. The model includes Python's floor division and the error
  cases. The generator loop is a method proved equal to the recursive
  definition.
- `PdfText`: `extract_text_from_pdf` adds up page texts until the first
  page that holds the stop marker. From that page it keeps only the text
  before the marker. Every failure becomes `None`. A method models the page
  loop, and a function it is proved against models the result.
- `Keywords`: both versions of `calculate_tfidf` with their input guards
  and word → score dictionaries. Also the stable descending top-`TOP_K` cut
  and the 0.05 threshold. The vectorizer is an oracle that yields a
  vocabulary of distinct terms and a weight for each (document, term) pair.
- `Sorting`: Python's `sorted(..., reverse=True)`, proved sorted, a
  permutation and stable.
- `PaperInfo`: `extract_paper_info` over the elements its lookups find. This
  covers the author join that skips the sign-in/sign-out icons, the
  exception raised for each missing element, and the detail URL built from
  a link.
- `Frames`: the part of pandas the pipelines use. That is frames built from
  row dictionaries or from a fixed empty schema, `concat`, and a `Table`
  class whose columns are assigned and deleted in place.
- `Sharding`: the per-link fold that both `process` functions share, the
  map over shards and the ordered concatenation in `main`. It is proved
  that the concatenated rows are the rows of one fold over all links. The
  columns can differ, as shown below.
- `ToolsPipeline`: `tools/neurips_csv.py`. Here a keyword `ValueError`
  skips the paper. A `None` PDF text raises `AttributeError` and aborts the
  shard.
- `TfidfPipeline`: `projects/tf-idf/neurips_csv.py`. Here every paper link
  gives a row, even when the PDF text is `None`. Its `main` adds
  thresholded keyword columns for titles and abstracts and deletes the
  `"PDF Text"` column.
- `WordFreq`: `projects/neurips.py`. It lowercases, counts, ranks by
  descending count and keeps the top 100, then lays out each line with
  `ljust`/`rjust`.
- `PyBase`, `PyStr`: `Option`/`Result`, the modelled Python exceptions,
  and the `str` operations the code relies on (`strip`, `in`, `split`,
  `join`, `str(int)`, `ljust`, `rjust`, `lower`).

Behaviour of the code worth knowing, as the model states it:
- `process` in `tools/neurips_csv.py` raises `AttributeError` for a paper
  whose PDF text is `None`, because the text reaches `text.strip()`. That
  aborts the shard (`ToolsPipeline.ToolsStepSpec`).
- In both pipelines `extract_paper_info` is called outside any `try`. Its
  exception ends the shard and the whole run (`Sharding.FoldRowsSpec`,
  `Sharding.RunIsFold`).
- `tools/neurips_csv.py` names the empty frame's columns `PDF_URL`,
  `Publication_Date`, `Key_Words_in_Abstract`, `Key_Words_in_Paper`. A row
  uses the keys `PDF URL`, `Publication date`, `TF-IDF given Abstract` and
  `TF-IDF given FullText`. A run with both empty and non-empty shards
  therefore has both spellings among its columns
  (`ToolsPipeline.ScrapeMixesSpellings`).
- In `projects/tf-idf/neurips_csv.py`, a run that finds no paper raises
  `ValueError` when it computes the title keywords
  (`TfidfPipeline.NoPapersNoKeywords`).
- A detail page whose only `<i>` elements are sign-in/out icons has the
  authors string `""`. Splitting that at `", "` gives `[""]`, not an empty
  list (`PaperInfo.NoAuthorsSplit`).
- The second `except fitz.FileDataError` handler can never run, and every
  handler returns `None`. The model has a single failure result.
- The comment in `projects/neurips.py` says "ascending", but the sort is
  descending (`WordFreq.RankedSpec`).

## Model

| member | source | states |
|---|---|---|
| Chunking.ChunkSizeIsCeiling | commons/utils.py:45 | for `n > 0` and a non-empty list, `len // n + (len % n > 0)` is at least 1 and is the ceiling of `len / n`: `(size-1)*n < len <= size*n` |
| Chunking.ChunksFlatten | commons/utils.py:46-47 | concatenating the slices `lst[i:i+size]` in order gives `lst` back |
| Chunking.ChunksShape | commons/utils.py:46-47 | every chunk is non-empty and at most `size` long, and every chunk but the last is exactly `size` long |
| Chunking.ChunksCount | commons/utils.py:46-47 | a list that fits in `m` chunks of `size` gives at most `m` chunks |
| Chunking.ChunkifyCorrect | commons/utils.py:43-47 | for `n > 0` and a non-empty list: success, between 1 and `n` well-formed chunks of size `ceil(len/n)`, whose concatenation is the list |
| Chunking.ChunkifyEdges | commons/utils.py:45-46 | `n == 0` gives `ZeroDivisionError`, an empty list gives `ValueError` (zero `range` step), and a negative `n` with a non-empty list gives no chunks; each error case is an if-and-only-if |
| Chunking.ChunkifyGen | tools/neurips_csv.py:204-208 | the generator loop, run to exhaustion, returns exactly `Chunkify`'s result, including its errors |
| Chunking.TenIntoThree | commons/utils.py:45-47 | 10 items in 3 shards give chunks of 4, 4 and 2 |
| Chunking.NineIntoFour | commons/utils.py:45-47 | 9 items in 4 shards give only 3 chunks, fewer than the shard count |
| PdfText.BeforeMarker | tools/neurips_csv.py:61 | `page_text.split(marker)[0]` is a prefix of the page. It ends where the marker first occurs, or is the whole page when the marker is absent |
| PdfText.ExtractTextFromPdf | tools/neurips_csv.py:47-77 | the page loop with `text +=` and `break` returns exactly `ExtractText`: `None` for a file that cannot be opened, otherwise the scanned text |
| PdfText.NoMarkerKeepsAll | tools/neurips_csv.py:56-65 | when no page holds the marker, the result is all page texts concatenated in order |
| PdfText.StopsAtFirstMarker | tools/neurips_csv.py:57-62 | with the first marker on page `k`, the result is pages `0..k-1` followed by page `k` up to the marker; later pages never count, whatever they are |
| PdfText.UnreadableBeforeMarkerFails | projects/tf-idf/neurips_csv.py:38-59 | a page that fails to render before any marker page makes the result `None` |
| PdfText.EmptyMarkerFails | projects/tf-idf/neurips_csv.py:41-43 | with an empty marker, `"" in text` holds and `split("")` raises, so the result is `None` |
| PdfText.WorkedExample | tools/neurips_csv.py:56-65 | the pages "intro text", "middle References\nfooter" and any third page give "intro textmiddle " |
| Sorting.SortDescCorrect | tools/neurips_csv.py:153-155 | `sorted(..., key=score, reverse=True)` is non-increasing in the key and is a permutation of its input; the items of each key keep their input order (stable) |
| Keywords.CalculateTfidfSpec | tools/neurips_csv.py:80-101 | `None` input gives `AttributeError`; blank text gives `ValueError` if and only if it is whitespace only; an empty vocabulary gives `ValueError`; on success there is one entry per vocabulary term, with distinct keys |
| Keywords.CalculateTfidfDocsSpec | commons/utils.py:13-40 | only a blank string is refused before vectorizing (a list skips the check); a zero-feature fit raises `ValueError`; on success there is one dictionary per document, aligned by index, each over the full vocabulary with that document's weights |
| Keywords.EmptyCorpusRaises | commons/utils.py:28-32 | an empty list of documents raises `ValueError` |
| Keywords.VariantsAgree | commons/utils.py:18-24 | on one string, the shared variant fails exactly when the single-document variant does, and otherwise returns that variant's dictionary wrapped in a list |
| Keywords.DocScores | commons/utils.py:37-38 | the dictionary built by zipping feature names with one matrix row has the vocabulary as keys, in order, and the row's weights as values |
| Keywords.TopKCorrect | tools/neurips_csv.py:153-156 | the top-K list has `min(K, len)` items of the dictionary in non-increasing score order; each scores at least every item left out; ties keep dictionary order |
| Keywords.TopWords | tools/neurips_csv.py:156 | the keyword list has `min(K, len)` words, each a word of the dictionary, namely the words of the top-K items in order |
| Keywords.AtLeastSpec | projects/tf-idf/neurips_csv.py:149 | the threshold filter keeps, in order, exactly the items scoring at least the threshold, each as many times as it occurs |
| Keywords.ThresholdedCorrect | projects/tf-idf/neurips_csv.py:148-149 | the keywords per document number at most `TOP_K`, each scores at least 0.05, they form an ordered subsequence of the stably sorted top-K, every top-K item reaching 0.05 is kept, and scores do not increase |
| Keywords.SubsequenceSorted | projects/tf-idf/neurips_csv.py:148-149 | filtering a non-increasing list leaves it non-increasing |
| PaperInfo.ExtractPaperInfoSpec | commons/utils.py:59-80 | a failed request raises its error; a missing title or abstract gives `AttributeError`, a missing meta tag `TypeError`, a meta tag without content `KeyError` (each if and only if, in lookup order); on success each field is the text or content looked up |
| PaperInfo.AuthorNamesSnoc | commons/utils.py:72-74 | an italic element with an excluded class adds no author, and any other element adds its stripped text after the names before it |
| PaperInfo.AuthorNamesAppend | commons/utils.py:72-74 | author names are taken element by element, in document order |
| PaperInfo.AuthorNamesCount | commons/utils.py:71-74 | there are at most as many names as italic elements, with equality if and only if no element carries `fa-sign-in-alt` or `fa-sign-out-alt` |
| PaperInfo.AuthorsRoundTrip | commons/utils.py:72 | for at least one name, none containing a comma, splitting the authors string at ", " gives the names back |
| PaperInfo.NoAuthorsSplit | commons/utils.py:72 | with no names (only sign-in/out icons) the authors string is empty, and splitting it gives `[""]`, not `[]` |
| PaperInfo.DetailUrlSpec | tools/neurips_csv.py:141-142 | the detail URL is the base URL, then "/hash/", then the last `/`-segment of the href: a suffix of the href containing no '/' and preceded by a '/' |
| PyStr.StripEmptyIff | tools/neurips_csv.py:85 | `not text.strip()` holds if and only if the text is whitespace only |
| PyStr.JoinSplit | commons/utils.py:72 | joining the pieces of a split with the same separator gives the string back |
| PyStr.SplitJoin | commons/utils.py:72 | splitting a join of at least one part gives the parts back when the separator's first character occurs nowhere else |
| PyStr.NatToStrRoundTrip | projects/neurips.py:35 | `str(count)` consists of decimal digits that read back as the count |
| Frames.Lookup | tools/neurips_csv.py:176-182 | a key absent from a row reads as NaN; otherwise it reads as the cell of the key's first item |
| Frames.ToFrameSpec | tools/neurips_csv.py:183-193 | with no rows the frame has exactly the fixed schema; otherwise its columns are the rows' common keys, in order, and its rows are the rows |
| Frames.AddNewSpec | tools/neurips_csv.py:239 | uniting column lists keeps the old columns first, adds each new name once and loses none |
| Frames.FrameColumnsSpec | tools/neurips_csv.py:239 | the columns of `concat` are distinct and are exactly those of some input frame |
| Frames.ConcatSpec | tools/neurips_csv.py:239 | `concat` fails if and only if there are no frames; otherwise its columns are the distinct union of the frames' columns |
| Frames.Without | projects/tf-idf/neurips_csv.py:162 | deleting a name keeps every other column and keeps the columns distinct |
| Frames.WithoutAppend | projects/tf-idf/neurips_csv.py:162 | deleting a column distributes over appending columns, and columns added later without that name are unchanged |
| Frames.WithoutAt | projects/tf-idf/neurips_csv.py:162 | deleting the column at position `i` of distinct columns leaves exactly the columns before it and those after it, in order |
| Frames.Table.constructor | projects/tf-idf/neurips_csv.py:139-142 | the table has the frame's columns, each holding that column's cells |
| Frames.Table.Get | projects/tf-idf/neurips_csv.py:144 | `df[name]` gives the column, or `KeyError` when there is none |
| Frames.Table.SetColumn | projects/tf-idf/neurips_csv.py:151 | assigning a list as long as the frame replaces the column or appends it and changes nothing else; on a frame with rows another length raises `ValueError` and changes nothing; a frame without rows takes its row count from the list and its other columns become all NaN |
| Frames.Table.DeleteColumn | projects/tf-idf/neurips_csv.py:162 | `del df[name]` removes exactly that column and its cells (the remaining order is given by `Frames.WithoutAt`); a missing column raises `KeyError` |
| Sharding.FoldRowsSpec | tools/neurips_csv.py:133-182 | the loop of `process` succeeds if and only if every link's step does; its rows are then the links' rows in link order; otherwise it raises the first failing link's exception |
| Sharding.FoldRowsAppend | tools/neurips_csv.py:133-182 | folding two lists in turn equals folding their concatenation |
| Sharding.FlattenSmall | tools/neurips_csv.py:176-182 | at most one row per link gives at most one row per link overall |
| Sharding.FoldRowsFrom | tools/neurips_csv.py:176-182 | every row of a fold comes from one link's step |
| Sharding.MapShardsFold | tools/neurips_csv.py:233-239 | mapping `process` over the shards fails exactly as one fold over their concatenation, with the same exception; otherwise it gives one frame per shard, whose rows, in shard order, are that fold's rows |
| Sharding.MapShardsEach | tools/neurips_csv.py:234 | frame `i` of the map is shard `i`'s `process` result |
| Sharding.RunShardColumns | tools/neurips_csv.py:233-239 | in a run that succeeds every shard's `process` succeeds and its columns are among the concatenated frame's columns |
| Sharding.RunIsFold | tools/neurips_csv.py:222-239 | for a positive shard count and a non-empty listing, `main` fails exactly as one `process` over the first 10000 links does; otherwise it yields exactly those rows in link order, with or without the sanity run |
| Sharding.RunEdges | tools/neurips_csv.py:227-234 | 0 shards give `ZeroDivisionError`, no links give `ValueError`, and a negative shard count gives `IndexError` (sanity run) or `ValueError` (pool size) |
| Sharding.RunIgnoresTail | tools/neurips_csv.py:222 | links after the first `MAX_NUM_PAPER` never affect the result |
| ToolsPipeline.Process | tools/neurips_csv.py:128-193 | the loop with `continue`s returns exactly `ProcessShard` over this pipeline's step |
| ToolsPipeline.ToolsStepSpec | tools/neurips_csv.py:138-182 | a link without "/paper/" is skipped before any fetch; an extraction error or a download error escapes; an abstract or full-text keyword `ValueError` skips the paper; a `None` PDF text raises `AttributeError`; a paper that passes every step gives its row, and a row is made only then |
| ToolsPipeline.KeywordErrorSkips | tools/neurips_csv.py:148-167 | a link is skipped if and only if it is not a paper link or a `ValueError` came from one of the two keyword computations |
| ToolsPipeline.PaperRowSpec | tools/neurips_csv.py:176-182 | a row has exactly the seven keys, each once, holding the paper's fields and the keyword lists joined by ", " |
| ToolsPipeline.RowKeysDistinct | tools/neurips_csv.py:176-182 | the seven row keys are distinct |
| ToolsPipeline.ProcessShape | tools/neurips_csv.py:176-193 | a shard has at most one row per link and every row has the seven keys; the columns are the row keys, or exactly the seven-name empty schema when there are no rows |
| ToolsPipeline.FoldRowsCount | tools/neurips_csv.py:176-182 | the row count is at most the link count |
| ToolsPipeline.FoldRowsKeys | tools/neurips_csv.py:176-182 | every row of a shard has the seven row keys |
| ToolsPipeline.StepRowKeys | tools/neurips_csv.py:176-182 | the row one link makes has the seven row keys |
| ToolsPipeline.NonPaperLinkIgnored | tools/neurips_csv.py:138-139 | a link without "/paper/" adds nothing, wherever it stands |
| ToolsPipeline.ScrapeIsOneProcess | tools/neurips_csv.py:211-239 | `main`'s frame holds exactly the rows of one `process` over the first 10000 links, or raises its exception |
| ToolsPipeline.ScrapeColumns | tools/neurips_csv.py:236-239 | the final columns are distinct, and each is a row key or an empty-schema name |
| ToolsPipeline.ScrapeMixesSpellings | tools/neurips_csv.py:183-193 | when one shard has no rows and another has some, the final columns hold both "PDF URL" and "PDF_URL" |
| ToolsPipeline.ShardSpelling | tools/neurips_csv.py:183-193 | a shard without rows has the column "PDF_URL", a shard with rows the column "PDF URL" |
| TfidfPipeline.Process | projects/tf-idf/neurips_csv.py:62-101 | the loop returns exactly `ProcessShard` over this pipeline's step |
| TfidfPipeline.TfidfStepSpec | projects/tf-idf/neurips_csv.py:72-91 | a link without "/paper/" is skipped; a paper link raises its page or download error, or else always gives its row, with `None` text for an unreadable PDF |
| TfidfPipeline.PaperRowSpec | projects/tf-idf/neurips_csv.py:86-91 | a row has exactly the six keys, with the text or `None` under "PDF Text" |
| TfidfPipeline.RowKeysDistinct | projects/tf-idf/neurips_csv.py:86-91 | the six row keys are distinct |
| TfidfPipeline.FoldRowsCount | projects/tf-idf/neurips_csv.py:72-91 | a shard that does not raise has exactly one row per paper link, including papers whose text is `None` |
| TfidfPipeline.ProcessShape | projects/tf-idf/neurips_csv.py:86-101 | a shard has one well-formed row per paper link; its columns are the row keys, or exactly the six-name empty schema when there are no rows |
| TfidfPipeline.KeywordColumnsFresh | projects/tf-idf/neurips_csv.py:151-160 | the two keyword columns are new and differ from each other |
| TfidfPipeline.RunFrame | projects/tf-idf/neurips_csv.py:130-142 | the concatenated frame has distinct columns including "Title", "Abstract" and "PDF Text", and one well-formed row per paper link among the first 10000 |
| TfidfPipeline.AsStrList | projects/tf-idf/neurips_csv.py:144 | `astype(str).tolist()` keeps the length and every text cell |
| TfidfPipeline.SelectKeywords | projects/tf-idf/neurips_csv.py:146-150 | the keyword loop yields exactly one thresholded top-K list per dictionary, aligned by position |
| TfidfPipeline.AddKeywordColumn | projects/tf-idf/neurips_csv.py:144-151 | a TF-IDF error leaves the table unchanged; otherwise the new column holds one keyword list per row, aligned, and nothing else changes |
| TfidfPipeline.Scrape | projects/tf-idf/neurips_csv.py:112-162 | `main` propagates the listing, run, title and abstract errors; otherwise the table has every column but "PDF Text", unchanged and in order, followed by the title and abstract keyword columns; a run with no rows raises `ValueError` |
| TfidfPipeline.NoPapersNoKeywords | projects/tf-idf/neurips_csv.py:144-145 | the column of a frame without rows is an empty corpus, and its TF-IDF raises `ValueError` |
| TfidfPipeline.CellsAfter | projects/tf-idf/neurips_csv.py:151-162 | after the two assignments and the deletion, the cells are the kept columns plus the two keyword columns |
| WordFreq.CounterSpec | projects/neurips.py:27 | `Counter` lists each word once, in first-occurrence order, with its number of occurrences; the counts sum to the number of words |
| WordFreq.WordCountsSpec | projects/neurips.py:24-27 | counted words are lowercase and are exactly the lowercase forms of the tokens; counts are per lowercase form and sum to the number of tokens |
| WordFreq.CaseInsensitive | projects/neurips.py:24 | token lists with the same lowercase forms give the same report |
| WordFreq.RankedSpec | projects/neurips.py:30 | the ranking is non-increasing by count, is a permutation of the counts, and keeps equal counts in first-occurrence order |
| WordFreq.ReportSpec | projects/neurips.py:13-39 | a non-200 status prints only the failure line; with status 200, no tokens raises `ValueError` (`max` of nothing) and otherwise `min(100, #words)` lines are printed, the first of the ranking in order |
| WordFreq.LineSpec | projects/neurips.py:37 | a line is the word left-justified to the word width, then ": ", then the count's digits right-justified to the count width |
| WordFreq.ReportLayout | projects/neurips.py:34-37 | every printed line uses the widths of the longest word and the longest count shown, so all lines have the same length |
| WordFreq.MaxLen | projects/neurips.py:34-35 | `max(len(...))` is an upper bound reached by some element |
| WordFreq.WordWidth | projects/neurips.py:34 | the word column is as wide as the longest word shown |
| WordFreq.CountWidth | projects/neurips.py:35 | the count column is as wide as the longest count shown |

## Left out

- HTTP: `requests.get`, `raise_for_status` and `download_pdf_from_url` are given functions in `Sharding.Services` and a given listing result. Each yields a value or a request error. Fetches are deterministic: the sanity run and the pool see the same responses for the links of the first shard, which `Sharding.RunIsFold` relies on.
- HTML parsing: BeautifulSoup is replaced by what its lookups find (`PaperInfo.DetailPage`). A link is given as its href string, so re-parsing the anchor markup inside the worker is not modelled.
- PyMuPDF: a document is given as a list of pages, each with its text or a rendering failure, or as a file that cannot be opened.
- TF-IDF numerics and the NLTK stop-word list: `TfidfVectorizer.fit_transform` is the oracle `Keywords.Vectorizer`. The oracle must give an empty vocabulary for an empty corpus, for which sklearn raises `ValueError`. For other inputs whose vocabulary sklearn rejects (stop words only), the model raises `ValueError` only when the oracle returns an empty vocabulary. Whether the scores are non-negative is a property of the oracle and is not stated.
- `multiprocessing.Pool.map` is a sequential map over the shards. When several shards raise, the model reports the first failing shard in shard order, but the real pool reports whichever it meets first.
- Logging (`log_error`), tqdm, argparse, `nltk.download`, and the CSV/Excel writing of `save_dataframe_to_csv`: these are I/O and user interface.
- The `is_sanity` flag of `process` has no effect in the source and is not modelled.
- The `\b\w+\b` tokenizer and `soup.get_text()` of `projects/neurips.py`: the token sequence is given. The printing of the lines is the returned sequence of lines.
- PyStr.Lower: lowercases ASCII letters only, because the model has no Unicode case table; Python's `str.lower` covers all of Unicode.
- Frame index, dtypes and the conversion of keyword dictionaries to cells: a frame is its column names and rows, and a keyword dictionary is the ordered list of its items.
- projects/keywords/neurips_keywords.py and tools/neurips_title.py are not part of this model. The first is not valid Python; the second only fetches, filters titles and prints counts.
