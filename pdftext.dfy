/** `extract_text_from_pdf(pdf_content, stop_pattern)`: the text of a PDF
    up to the stop marker. The PDF library is replaced by what it yields:
    a document that may fail to open, whose pages may fail to render. */
module PdfText {
  import opened PyBase
  import opened PyStr

  /** One page as the PDF library renders it: its text, or an exception
      from `page.get_text()`. */
  datatype Page = Text(text: string) | Unreadable

  /** The result of opening the byte stream as a PDF. */
  datatype PdfFile = Pdf(pages: seq<Page>) | Unopenable

  /** The marker the callers pass: the bibliography heading. */
  const REFERENCES: string := "References\n"

  /** `page_text.split(stop_pattern)[0]`: the text before the marker's
      first occurrence. */
  function BeforeMarker(t: string, marker: string): (r: string)
    requires marker != ""
    ensures |r| <= |t| && r == t[..|r|]
    ensures !Contains(t, marker) ==> r == t
    ensures Contains(t, marker) ==> OccursAt(t, marker, |r|)
    ensures Contains(t, marker) ==> forall j :: 0 <= j < |r| ==> !OccursAt(t, marker, j)
  {
    SplitHead(t, marker);
    FindContains(t, marker);
    Split(t, marker)[0]
  }

  /** The accumulated text for the pages from this one on: `None` as
      soon as a page fails to render before the marker was reached, or
      when the marker is the empty string (`split("")` raises). */
  function Scan(pages: seq<Page>, marker: string): Option<string> {
    if pages == [] then Some("")
    else match pages[0]
      case Unreadable => None
      case Text(t) =>
        if Contains(t, marker) then
          if marker == "" then None else Some(BeforeMarker(t, marker))
        else
          match Scan(pages[1..], marker)
          case None => None
          case Some(rest) => Some(t + rest)
  }

  /** What `extract_text_from_pdf` returns: every exception is caught
      and becomes `None`. */
  function ExtractText(file: PdfFile, marker: string): Option<string> {
    match file
    case Unopenable => None
    case Pdf(pages) => Scan(pages, marker)
  }

  /** `Some(prefix + x)` for `Some(x)`, `None` for `None`. */
  function Prepend(prefix: string, o: Option<string>): Option<string> {
    match o
    case None => None
    case Some(x) => Some(prefix + x)
  }

  lemma PrependEmpty(o: Option<string>)
    ensures Prepend("", o) == o
  {
    if o.Some? {
      assert "" + o.value == o.value;
    }
  }

  lemma PrependPrepend(a: string, b: string, o: Option<string>)
    ensures Prepend(a, Prepend(b, o)) == Prepend(a + b, o)
  {
    if o.Some? {
      assert a + (b + o.value) == (a + b) + o.value;
    }
  }

  /** The page loop of `extract_text_from_pdf`: `text +=` each page,
      and on the first page holding the marker only what precedes it,
      then `break`. */
  method ExtractTextFromPdf(file: PdfFile, marker: string) returns (r: Option<string>)
    ensures r == ExtractText(file, marker)
  {
    if file.Unopenable? {
      return None;
    }
    var pages := file.pages;
    var text := "";
    var i := 0;
    PrependEmpty(Scan(pages, marker));
    while i < |pages|
      invariant 0 <= i <= |pages|
      invariant Scan(pages, marker) == Prepend(text, Scan(pages[i..], marker))
    {
      assert pages[i..][1..] == pages[i + 1..];
      match pages[i]
      case Unreadable =>
        return None;
      case Text(t) =>
        if Contains(t, marker) {
          if marker == "" {
            return None;
          }
          text := text + BeforeMarker(t, marker);
          return Some(text);
        }
        assert Scan(pages[i..], marker) == Prepend(t, Scan(pages[i + 1..], marker));
        PrependPrepend(text, t, Scan(pages[i + 1..], marker));
        text := text + t;
      i := i + 1;
    }
    assert pages[i..] == [];
    assert text + "" == text;
    return Some(text);
  }

  /** The texts of pages that all rendered. */
  function Texts(pages: seq<Page>): seq<string>
    requires forall i :: 0 <= i < |pages| ==> pages[i].Text?
  {
    seq(|pages|, i requires 0 <= i < |pages| => pages[i].text)
  }

  /** With no marker anywhere, the result is every page's text in order. */
  lemma {:induction false} NoMarkerKeepsAll(pages: seq<Page>, marker: string)
    requires forall i :: 0 <= i < |pages| ==> pages[i].Text? && !Contains(pages[i].text, marker)
    ensures ExtractText(Pdf(pages), marker) == Some(Flatten(Texts(pages)))
  {
    if pages != [] {
      NoMarkerKeepsAll(pages[1..], marker);
      assert Texts(pages) == [pages[0].text] + Texts(pages[1..]);
      assert ([pages[0].text] + Texts(pages[1..]))[1..] == Texts(pages[1..]);
    }
  }

  /** With the first marker on page `k`, the result is the text of the
      pages before it and of page `k` up to the marker; the pages after
      it are never looked at, so they may be anything. */
  lemma {:induction false} StopsAtFirstMarker(pages: seq<Page>, marker: string, k: nat)
    requires marker != "" && k < |pages|
    requires forall i :: 0 <= i < k ==> pages[i].Text? && !Contains(pages[i].text, marker)
    requires pages[k].Text? && Contains(pages[k].text, marker)
    ensures ExtractText(Pdf(pages), marker)
            == Some(Flatten(Texts(pages[..k])) + BeforeMarker(pages[k].text, marker))
  {
    if k > 0 {
      var rest := pages[1..];
      assert forall i :: 0 <= i < k - 1 ==> rest[i] == pages[i + 1];
      StopsAtFirstMarker(rest, marker, k - 1);
      ScanStep(pages, marker);
      FlattenTextsCons(pages, k);
      ConcatAssoc(pages[0].text, Flatten(Texts(rest[..k - 1])), BeforeMarker(pages[k].text, marker));
    } else {
      assert Texts(pages[..0]) == [];
      assert Flatten(Texts(pages[..0])) == "";
      assert "" + BeforeMarker(pages[0].text, marker) == BeforeMarker(pages[0].text, marker);
    }
  }

  /** A text page without the marker is kept and the scan goes on. */
  lemma ScanStep(pages: seq<Page>, marker: string)
    requires pages != [] && pages[0].Text? && !Contains(pages[0].text, marker)
    ensures Scan(pages, marker) == Prepend(pages[0].text, Scan(pages[1..], marker))
  {
  }

  lemma FlattenTextsCons(pages: seq<Page>, k: nat)
    requires 0 < k <= |pages| && forall i :: 0 <= i < k ==> pages[i].Text?
    ensures Flatten(Texts(pages[..k])) == pages[0].text + Flatten(Texts(pages[1..][..k - 1]))
  {
    TextsCons(pages[..k]);
    assert pages[..k][1..] == pages[1..][..k - 1];
    var ts := Texts(pages[1..][..k - 1]);
    assert ([pages[0].text] + ts)[1..] == ts;
  }

  lemma ConcatAssoc(a: string, b: string, c: string)
    ensures a + (b + c) == (a + b) + c
  {
  }

  lemma TextsCons(pages: seq<Page>)
    requires pages != [] && forall i :: 0 <= i < |pages| ==> pages[i].Text?
    ensures Texts(pages) == [pages[0].text] + Texts(pages[1..])
  {
    assert forall i :: 0 <= i < |pages[1..]| ==> pages[1..][i] == pages[i + 1];
  }

  /** A page that fails to render before any marker loses the whole
      text; the same page after the marker page does no harm. */
  lemma {:induction false} UnreadableBeforeMarkerFails(pages: seq<Page>, marker: string, k: nat)
    requires k < |pages| && pages[k].Unreadable?
    requires forall i :: 0 <= i < k ==> pages[i].Text? && !Contains(pages[i].text, marker)
    ensures ExtractText(Pdf(pages), marker) == None
  {
    if k > 0 {
      UnreadableBeforeMarkerFails(pages[1..], marker, k - 1);
    }
  }

  /** An empty marker is found on the first page and `split("")` raises,
      so any document with a page gives `None`. */
  lemma EmptyMarkerFails(pages: seq<Page>)
    requires pages != [] && pages[0].Text?
    ensures ExtractText(Pdf(pages), "") == None
  {
    assert OccursAt(pages[0].text, "", 0);
  }

  /** The marker page of the worked example keeps "middle ". */
  lemma ExampleMarkerPage()
    ensures Contains("middle References\nfooter", REFERENCES)
    ensures BeforeMarker("middle References\nfooter", REFERENCES) == "middle "
  {
    var p1 := "middle References\nfooter";
    assert p1[7..18] == REFERENCES;
    assert OccursAt(p1, REFERENCES, 7);
    forall j | 0 <= j < 7
      ensures !OccursAt(p1, REFERENCES, j)
    {
      assert p1[j] != 'R';
      assert p1[j..j + 11][0] == p1[j];
    }
    var b := BeforeMarker(p1, REFERENCES);
    assert |b| == 7;
    assert p1[..7] == "middle ";
  }

  /** Three pages with the marker first on the second: the first page
      whole, then the second up to the marker. */
  lemma MarkerOnSecondPage(p0: string, p1: string, last: Page, marker: string)
    requires marker != "" && !Contains(p0, marker) && Contains(p1, marker)
    ensures ExtractText(Pdf([Text(p0), Text(p1), last]), marker)
            == Some(p0 + BeforeMarker(p1, marker))
  {
    var pages := [Text(p0), Text(p1), last];
    assert pages[1..] == [Text(p1), last];
    assert Scan(pages[1..], marker) == Some(BeforeMarker(p1, marker));
  }

  lemma IntroHasNoMarker()
    ensures !Contains("intro text", REFERENCES)
  {
    var p0 := "intro text";
    forall i | 0 <= i <= |p0|
      ensures !OccursAt(p0, REFERENCES, i)
    {
      assert |p0| < |REFERENCES|;
    }
  }

  /** The worked example: "intro text", then "middle References\nfooter",
      then a page that is never reached. */
  lemma WorkedExample(last: Page)
    ensures ExtractText(Pdf([Text("intro text"), Text("middle References\nfooter"), last]), REFERENCES)
            == Some("intro text" + "middle ")
  {
    ExampleMarkerPage();
    IntroHasNoMarker();
    MarkerOnSecondPage("intro text", "middle References\nfooter", last, REFERENCES);
  }
}
