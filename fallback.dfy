/**
 * The source fallback of `fetch_product_specs` (script5.py:71-109). The network, the HTML
 * parser and the PDF decoder are not modelled; what each stage gets back from them is an
 * input:
 *   - `searchLinks(query)`: the `href` of every anchor on the result page of a search, or
 *     `None` when the request or the parse fails;
 *   - `pdfText(url)`: the text of the PDF downloaded from `url`, or `None` when the download or
 *     the decoding fails;
 *   - `searchText(query)`: the text of the `div#search` block of a result page, or `None` when
 *     the request fails or the block is missing.
 * The result carries the specification found and the requests made, in order.
 */
module SourceFallback {
  import opened Wrappers
  import opened Text
  import opened SpecEngine

  /** An outbound request: a search engine query or a document download. */
  datatype Request = Search(query: string) | Download(url: string)

  /** What `fetch_product_specs` returns, with the requests it made on the way. */
  datatype Fetch = Fetch(specs: Option<Spec>, requests: seq<Request>)

  /** The query of the PDF stage. */
  function PdfQuery(model: string): (q: string)
    ensures |q| > |model| && q[..|model|] == model
  {
    model + " technical specifications filetype:pdf"
  }

  /** A PDF candidate: "pdf" anywhere in the link in any case, and no "google.com" in it,
      that one compared case-sensitively. */
  predicate IsPdfLink(href: string) {
    Contains(LowerText(href), "pdf") && !Contains(href, "google.com")
  }

  /** The list comprehension of script5.py:80-83: the PDF candidates, in page order. */
  function PdfLinks(hrefs: seq<string>): (links: seq<string>)
    ensures |links| <= |hrefs|
    ensures forall h :: h in links <==> h in hrefs && IsPdfLink(h)
  {
    if |hrefs| == 0 then []
    else if IsPdfLink(hrefs[0]) then [hrefs[0]] + PdfLinks(hrefs[1..])
    else
      assert forall h :: h in hrefs <==> h == hrefs[0] || h in hrefs[1..];
      PdfLinks(hrefs[1..])
  }

  /** The PDF stage: the extraction of the first candidate's text, or `None` when the stage
      fails or finds no candidate, together with the requests it made. */
  function PdfStage(model: string, searchLinks: string -> Option<seq<string>>, pdfText: string -> Option<string>): (r: Fetch)
    ensures 1 <= |r.requests| <= 2 && r.requests[0] == Search(PdfQuery(model))
    ensures forall k :: 1 <= k < |r.requests| ==> r.requests[k].Download?
    ensures r.specs.Some? ==> |r.requests| == 2
  {
    var query := PdfQuery(model);
    match searchLinks(query)
    case None => Fetch(None, [Search(query)])
    case Some(hrefs) =>
      var links := PdfLinks(hrefs);
      if |links| == 0 then Fetch(None, [Search(query)])
      else match pdfText(links[0])
        case None => Fetch(None, [Search(query), Download(links[0])])
        case Some(text) => Fetch(Some(ExtractSpecs(text)), [Search(query), Download(links[0])])
  }

  /** The HTML stage: the extraction of the plain result page for the model name. */
  function HtmlStage(model: string, searchText: string -> Option<string>): (r: Fetch)
    ensures r.requests == [Search(model)]
  {
    match searchText(model)
    case None => Fetch(None, [Search(model)])
    case Some(text) => Fetch(Some(ExtractSpecs(text)), [Search(model)])
  }

  /** `fetch_product_specs`: the PDF stage once, then the HTML stage once if the PDF stage
      produced nothing. */
  function FetchProductSpecs(model: string, searchLinks: string -> Option<seq<string>>,
                             pdfText: string -> Option<string>, searchText: string -> Option<string>): (r: Fetch)
    ensures 1 <= |r.requests| <= 3 && r.requests[0] == Search(PdfQuery(model))
    ensures forall k :: 1 <= k < |r.requests| ==> r.requests[k] != Search(PdfQuery(model))
    ensures forall k :: 0 <= k < |r.requests| - 1 ==> r.requests[k] != Search(model)
    ensures r.specs.None? ==> r.requests[|r.requests| - 1] == Search(model)
  {
    var pdf := PdfStage(model, searchLinks, pdfText);
    if pdf.specs.Some? then pdf
    else
      var html := HtmlStage(model, searchText);
      Fetch(html.specs, pdf.requests + html.requests)
  }

  /** `i` is the index of the first PDF candidate among `hrefs`. */
  ghost predicate FirstPdfLinkAt(hrefs: seq<string>, i: nat) {
    i < |hrefs| && IsPdfLink(hrefs[i]) && forall j :: 0 <= j < i ==> !IsPdfLink(hrefs[j])
  }

  /** The candidate used is the first link of the page that passes the filter. */
  lemma {:induction false} PdfLinksHead(hrefs: seq<string>, i: nat)
    requires FirstPdfLinkAt(hrefs, i)
    ensures |PdfLinks(hrefs)| > 0 && PdfLinks(hrefs)[0] == hrefs[i]
  {
    if i > 0 {
      assert !IsPdfLink(hrefs[0]);
      assert FirstPdfLinkAt(hrefs[1..], i - 1) by {
        forall j | 0 <= j < i - 1
          ensures !IsPdfLink(hrefs[1..][j])
        {
          assert hrefs[1..][j] == hrefs[j + 1];
        }
      }
      PdfLinksHead(hrefs[1..], i - 1);
    }
  }

  /** No candidate at all exactly when no link passes the filter. */
  lemma PdfLinksEmpty(hrefs: seq<string>)
    ensures |PdfLinks(hrefs)| == 0 <==> forall j :: 0 <= j < |hrefs| ==> !IsPdfLink(hrefs[j])
  {
    if |PdfLinks(hrefs)| > 0 {
      assert PdfLinks(hrefs)[0] in PdfLinks(hrefs);
    }
  }

  /** The filter keeps the page order: filtering two halves and joining them is filtering the
      whole page. */
  lemma {:induction false} PdfLinksAppend(a: seq<string>, b: seq<string>)
    ensures PdfLinks(a + b) == PdfLinks(a) + PdfLinks(b)
  {
    if |a| > 0 {
      assert (a + b)[0] == a[0];
      assert (a + b)[1..] == a[1..] + b;
      PdfLinksAppend(a[1..], b);
    } else {
      assert a + b == b;
    }
  }

  /** "pdf" is looked for in any case. */
  lemma IsPdfLinkIgnoresCase(href: string)
    ensures IsPdfLink(href) <==> (exists i: nat :: WordAt(href, i, "pdf")) && !Contains(href, "google.com")
  {
    ContainsLower(href, "pdf");
  }

  /** The requests of the PDF stage, case by case: the search alone when it fails or its page
      has no candidate, then the download of the first candidate whether or not it is read. */
  lemma PdfStageTrace(model: string, searchLinks: string -> Option<seq<string>>, pdfText: string -> Option<string>)
    ensures var r := PdfStage(model, searchLinks, pdfText);
      searchLinks(PdfQuery(model)).None? ==> r == Fetch(None, [Search(PdfQuery(model))])
    ensures var r := PdfStage(model, searchLinks, pdfText);
      searchLinks(PdfQuery(model)).Some? && (forall j :: 0 <= j < |searchLinks(PdfQuery(model)).value| ==> !IsPdfLink(searchLinks(PdfQuery(model)).value[j]))
      ==> r == Fetch(None, [Search(PdfQuery(model))])
    ensures forall i: nat {:trigger FirstPdfLinkAt(searchLinks(PdfQuery(model)).value, i)} ::
      searchLinks(PdfQuery(model)).Some? && FirstPdfLinkAt(searchLinks(PdfQuery(model)).value, i) ==>
      var url := searchLinks(PdfQuery(model)).value[i];
      PdfStage(model, searchLinks, pdfText).requests == [Search(PdfQuery(model)), Download(url)]
      && PdfStage(model, searchLinks, pdfText).specs == (if pdfText(url).Some? then Some(ExtractSpecs(pdfText(url).value)) else None)
  {
    match searchLinks(PdfQuery(model))
    case None =>
    case Some(hrefs) =>
      PdfLinksEmpty(hrefs);
      forall i: nat | FirstPdfLinkAt(hrefs, i)
        ensures PdfLinks(hrefs)[0] == hrefs[i] && |PdfLinks(hrefs)| > 0
      {
        PdfLinksHead(hrefs, i);
      }
  }

  /** When the page has a candidate and its PDF is read, the extraction of that PDF is the
      result, whatever fields it found, possibly none; the HTML stage is not run. */
  lemma FetchFromPdf(model: string, searchLinks: string -> Option<seq<string>>,
                     pdfText: string -> Option<string>, searchText: string -> Option<string>,
                     hrefs: seq<string>, i: nat, text: string)
    requires searchLinks(PdfQuery(model)) == Some(hrefs)
    requires FirstPdfLinkAt(hrefs, i)
    requires pdfText(hrefs[i]) == Some(text)
    ensures FetchProductSpecs(model, searchLinks, pdfText, searchText)
      == Fetch(Some(ExtractSpecs(text)), [Search(PdfQuery(model)), Download(hrefs[i])])
  {
    PdfLinksHead(hrefs, i);
  }

  /** When the PDF stage fails at any point, or the page has no candidate, the HTML stage runs
      exactly once, last, and decides the result; its failure is `None`. */
  lemma FetchFromHtml(model: string, searchLinks: string -> Option<seq<string>>,
                      pdfText: string -> Option<string>, searchText: string -> Option<string>)
    requires PdfStage(model, searchLinks, pdfText).specs.None?
    ensures var r := FetchProductSpecs(model, searchLinks, pdfText, searchText);
      && r.specs == (if searchText(model).Some? then Some(ExtractSpecs(searchText(model).value)) else None)
      && r.requests == PdfStage(model, searchLinks, pdfText).requests + [Search(model)]
      && |r.requests| >= 2
  {
  }

  /** The PDF stage fails exactly when the search fails, the page has no candidate, or the
      first candidate cannot be read. */
  lemma PdfStageFails(model: string, searchLinks: string -> Option<seq<string>>, pdfText: string -> Option<string>)
    ensures PdfStage(model, searchLinks, pdfText).specs.None? <==>
      || searchLinks(PdfQuery(model)).None?
      || (forall j :: 0 <= j < |searchLinks(PdfQuery(model)).value| ==> !IsPdfLink(searchLinks(PdfQuery(model)).value[j]))
      || exists i: nat :: FirstPdfLinkAt(searchLinks(PdfQuery(model)).value, i) && pdfText(searchLinks(PdfQuery(model)).value[i]).None?
  {
    match searchLinks(PdfQuery(model))
    case None =>
    case Some(hrefs) =>
      PdfLinksEmpty(hrefs);
      if |PdfLinks(hrefs)| > 0 {
        var i := PdfLinksFirst(hrefs);
        PdfLinksHead(hrefs, i);
        forall i': nat | FirstPdfLinkAt(hrefs, i')
          ensures i' == i
        {
        }
      }
  }

  /** When the page has a candidate, the first one is found at some index. */
  lemma PdfLinksFirst(hrefs: seq<string>) returns (i: nat)
    requires |PdfLinks(hrefs)| > 0
    ensures FirstPdfLinkAt(hrefs, i)
  {
    PdfLinksEmpty(hrefs);
    var k :| 0 <= k < |hrefs| && IsPdfLink(hrefs[k]);
    i := 0;
    while !IsPdfLink(hrefs[i])
      invariant i <= k
      invariant forall j :: 0 <= j < i ==> !IsPdfLink(hrefs[j])
      decreases k - i
    {
      i := i + 1;
    }
  }

  /** "Guide.PDF" passes the filter: the "pdf" test ignores case. */
  lemma UpperCasePdfExample(href: string)
    requires href == "Guide.PDF"
    ensures IsPdfLink(href)
  {
    IsPdfLinkIgnoresCase(href);
    assert WordAt(href, 6, "pdf");
  }

  /** The page links to one PDF whose text has no usable field; the empty extraction is the
      result and the plain search is never made. */
  lemma EmptyPdfExample(model: string)
    ensures FetchProductSpecs(model, q => Some(["Guide.PDF"]), u => Some(""), q => Some("Consommation: 850 W"))
      == Fetch(Some(Spec(None, None, NonInverter, None)), [Search(PdfQuery(model)), Download("Guide.PDF")])
  {
    UpperCasePdfExample("Guide.PDF");
    assert FirstPdfLinkAt(["Guide.PDF"], 0);
    FetchFromPdf(model, q => Some(["Guide.PDF"]), u => Some(""), q => Some("Consommation: 850 W"), ["Guide.PDF"], 0, "");
    EmptyTextExample();
  }

  /** A link into google.com is never a candidate, even when it names a PDF. */
  lemma GoogleLinkExample()
    ensures !IsPdfLink("google.com/a.pdf")
  {
    assert "google.com/a.pdf"[0..10] == "google.com";
    assert OccursAt("google.com/a.pdf", "google.com", 0);
  }
}
