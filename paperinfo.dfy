/** `extract_paper_info(url)` (identical in the shared utilities and in
    the stand-alone tool) and the detail-page URL that `process` builds
    from a link. The HTTP fetch and the HTML parser are replaced by what
    they yield: the fetched page, or a request failure, and on the page
    the elements the function looks up. */
module PaperInfo {
  import opened PyBase
  import opened PyStr

  /** An HTML element: its text nodes in document order and its `class`
      attribute (`[]` when it has none, as `get("class", [])` gives). */
  datatype Element = Element(strings: seq<string>, classes: seq<string>)

  /** A `<meta>` tag and its `content` attribute, if it has one. */
  datatype Meta = Meta(content: Option<string>)

  /** What the lookups on the parsed detail page find:
      `find("title")`, `find_all("i")`, the `<p>` after the "Abstract"
      heading (missing when either the heading or the paragraph is), and
      the two `citation_*` meta tags. */
  datatype DetailPage = DetailPage(
    title: Option<Element>,
    italics: seq<Element>,
    abstractPara: Option<Element>,
    pdfMeta: Option<Meta>,
    dateMeta: Option<Meta>)

  datatype Paper = Paper(title: string, authors: string, summary: string,
                         pdfUrl: string, publicationDate: string)

  /** `get_text(strip=True)`: every text node stripped, concatenated. */
  function GetText(e: Element): string {
    Flatten(seq(|e.strings|, i requires 0 <= i < |e.strings| => Strip(e.strings[i])))
  }

  /** The icon classes of the sign-in / sign-out links. */
  const EXCLUSION: seq<string> := ["fa-sign-in-alt", "fa-sign-out-alt"]

  /** `any(ex in author.get("class", []) for ex in exclusion)`. */
  predicate Excluded(e: Element) {
    exists k :: 0 <= k < |EXCLUSION| && EXCLUSION[k] in e.classes
  }

  /** The texts of the italic elements that are not excluded. */
  function AuthorNames(italics: seq<Element>): seq<string> {
    if italics == [] then []
    else (if Excluded(italics[0]) then [] else [GetText(italics[0])]) + AuthorNames(italics[1..])
  }

  /** `", ".join(...)` of the author names. */
  function Authors(italics: seq<Element>): string {
    Join(", ", AuthorNames(italics))
  }

  /** Looks up `["content"]` on a meta tag found by `find`: a missing tag
      is `None`, and subscripting it is a `TypeError`; a tag without the
      attribute is a `KeyError`. */
  function Content(m: Option<Meta>): Result<string> {
    match m
    case None => Err(TypeError)
    case Some(Meta(None)) => Err(KeyError)
    case Some(Meta(Some(c))) => Ok(c)
  }

  /** `extract_paper_info`: a failed request raises; then the title, the
      authors, the abstract, the PDF URL and the date, in that order, the
      first missing piece raising its exception. */
  function ExtractPaperInfo(fetched: Result<DetailPage>): Result<Paper> {
    match fetched
    case Err(e) => Err(e)
    case Ok(page) =>
      if page.title.None? then Err(AttributeError)
      else
        var authors := Authors(page.italics);
        if page.abstractPara.None? then Err(AttributeError)
        else match Content(page.pdfMeta)
          case Err(e) => Err(e)
          case Ok(pdfUrl) =>
            match Content(page.dateMeta)
            case Err(e) => Err(e)
            case Ok(date) =>
              Ok(Paper(GetText(page.title.value), authors, GetText(page.abstractPara.value), pdfUrl, date))
  }

  /** Which exception `extract_paper_info` raises, for each missing
      piece, and what it returns when nothing is missing. */
  lemma ExtractPaperInfoSpec(fetched: Result<DetailPage>)
    ensures fetched.Err? ==> ExtractPaperInfo(fetched) == Err(fetched.exc)
    ensures fetched.Ok? ==>
              var p := fetched.value;
              && (ExtractPaperInfo(fetched) == Err(AttributeError)
                  <==> p.title.None? || p.abstractPara.None?)
              && (ExtractPaperInfo(fetched) == Err(TypeError)
                  <==> p.title.Some? && p.abstractPara.Some? && (p.pdfMeta.None? || (p.pdfMeta.value.content.Some? && p.dateMeta.None?)))
              && (ExtractPaperInfo(fetched) == Err(KeyError)
                  <==> p.title.Some? && p.abstractPara.Some? && p.pdfMeta.Some?
                       && (p.pdfMeta.value.content.None? || (p.dateMeta.Some? && p.dateMeta.value.content.None?)))
              && (ExtractPaperInfo(fetched).Ok?
                  <==> p.title.Some? && p.abstractPara.Some? && p.pdfMeta.Some? && p.dateMeta.Some?
                       && p.pdfMeta.value.content.Some? && p.dateMeta.value.content.Some?)
    ensures ExtractPaperInfo(fetched).Ok? ==>
              var p, r := fetched.value, ExtractPaperInfo(fetched).value;
              && r.title == GetText(p.title.value)
              && r.authors == Join(", ", AuthorNames(p.italics))
              && r.summary == GetText(p.abstractPara.value)
              && Some(r.pdfUrl) == p.pdfMeta.value.content
              && Some(r.publicationDate) == p.dateMeta.value.content
  {
  }

  /** Author names are taken element by element, in document order. */
  lemma {:induction false} AuthorNamesAppend(a: seq<Element>, b: seq<Element>)
    ensures AuthorNames(a + b) == AuthorNames(a) + AuthorNames(b)
  {
    if a == [] {
      assert a + b == b;
    } else {
      assert (a + b)[0] == a[0];
      assert (a + b)[1..] == a[1..] + b;
      AuthorNamesAppend(a[1..], b);
    }
  }

  /** An element carrying an excluded class adds no name; any other adds
      its text, after the names before it. */
  lemma AuthorNamesSnoc(italics: seq<Element>, e: Element)
    ensures Excluded(e) ==> AuthorNames(italics + [e]) == AuthorNames(italics)
    ensures !Excluded(e) ==> AuthorNames(italics + [e]) == AuthorNames(italics) + [GetText(e)]
  {
    AuthorNamesAppend(italics, [e]);
    assert [e][1..] == [];
  }

  /** Exactly the elements without an excluded class give names. */
  lemma {:induction false} AuthorNamesCount(italics: seq<Element>)
    ensures |AuthorNames(italics)| <= |italics|
    ensures |AuthorNames(italics)| == |italics| <==> forall i :: 0 <= i < |italics| ==> !Excluded(italics[i])
  {
    if italics != [] {
      AuthorNamesCount(italics[1..]);
      if !Excluded(italics[0]) {
        assert forall i :: 1 <= i < |italics| ==> italics[i] == italics[1..][i - 1];
      }
    }
  }

  /** When no name contains a comma, splitting the authors string at
      ", " gives the names back. */
  lemma AuthorsRoundTrip(italics: seq<Element>)
    requires AuthorNames(italics) != []
    requires forall k :: 0 <= k < |AuthorNames(italics)| ==> ',' !in AuthorNames(italics)[k]
    ensures Split(Authors(italics), ", ") == AuthorNames(italics)
  {
    SplitJoin(AuthorNames(italics), ", ");
  }

  /** With no names (only sign-in/out icons, or no `<i>` at all) the
      authors string is empty, and splitting it gives one empty name
      rather than none. */
  lemma NoAuthorsSplit(italics: seq<Element>)
    requires AuthorNames(italics) == []
    ensures Authors(italics) == ""
    ensures Split(Authors(italics), ", ") == [""]
  {
    assert Find("", ", ") == None;
  }

  /** `f"https://papers.nips.cc/paper_files/paper/{year}"`. */
  function BaseUrl(year: int): string {
    "https://papers.nips.cc/paper_files/paper/" + IntToStr(year)
  }

  /** `href.split("/")[-1]`. */
  function PaperId(href: string): string {
    Last(Split(href, "/"))
  }

  /** `f"{base_url}/hash/{paper_id}"`. */
  function DetailUrl(base: string, href: string): string {
    base + "/hash/" + PaperId(href)
  }

  /** For a paper link the detail URL is the base, then "/hash/", then
      the part of the link after its last '/': a suffix of the link with
      no '/' in it, preceded in the link by a '/'. */
  lemma DetailUrlSpec(base: string, href: string)
    requires Contains(href, "/paper/")
    ensures var u := DetailUrl(base, href);
            var id := u[|base| + 6..];
            && |u| >= |base| + 6 && u[..|base| + 6] == base + "/hash/"
            && IsSuffix(id, href) && '/' !in id
            && |id| < |href| && href[|href| - |id| - 1] == '/'
  {
    var id := PaperId(href);
    var u := DetailUrl(base, href);
    assert u[|base| + 6..] == id;
    LastPieceIsSuffix(href, "/");
    LastPieceAfterSep(href, "/");
    LastPieceFree(href, "/");
    assert '/' !in id by {
      forall i | 0 <= i < |id|
        ensures id[i] != '/'
      {
        assert !OccursAt(id, "/", i);
        assert id[i..i + 1] == [id[i]];
      }
    }
    var k :| 0 <= k <= |href| && OccursAt(href, "/paper/", k);
    assert href[k] == "/paper/"[0];
    assert |id| < |href|;
    assert OccursAt(href, "/", |href| - |id| - 1);
    assert href[|href| - |id| - 1..|href| - |id|][0] == href[|href| - |id| - 1];
  }
}
