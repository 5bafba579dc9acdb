/** The record model of a search: a paper, the hit list, the whole response,
    and the extraction of downloadable PDF links from the hits. */
module Models {
  import opened Text
  import Json

  /** One hit. Every field but `id` is an optional list of strings, as the
      service returns them; `summary` holds the service's `abstract` field. */
  datatype Paper = Paper(
    id: string,
    title: Option<seq<string>>,
    creatorName: Option<seq<string>>,
    identifierUrl: Option<seq<string>>,
    date: Option<seq<string>>,
    summary: Option<seq<string>>,
    subject: Option<seq<string>>)

  /** The hit list with the service's total match count. */
  datatype SearchHits = SearchHits(total: int, hits: seq<Paper>)

  /** A complete search response together with the query and request
      parameters that produced it and the moment it was created. */
  datatype EconBizResponse = EconBizResponse(
    hits: SearchHits,
    facets: Option<map<string, Json.Value>>,
    query: string,
    searchParams: map<string, Json.Value>,
    timestamp: string)

  /** Truthiness of an optional list: present and non-empty. */
  predicate Present(field: Option<seq<string>>) {
    field.Some? && |field.value| > 0
  }

  /** The first locator of a paper, if it has any. */
  function PdfUrl(p: Paper): (r: Option<string>)
    ensures r.Some? <==> Present(p.identifierUrl)
    ensures r.Some? ==> r.value == p.identifierUrl.value[0]
  {
    if Present(p.identifierUrl) then Some(p.identifierUrl.value[0]) else None
  }

  /** The paper has a first locator and it is a non-empty string. */
  predicate HasPdf(p: Paper) {
    PdfUrl(p).Some? && PdfUrl(p).value != ""
  }

  /** The `(id, url)` pair a paper with a PDF contributes. */
  function PdfEntry(p: Paper): (string, string)
    requires HasPdf(p)
  {
    (p.id, PdfUrl(p).value)
  }

  /** The papers of a response, in hit order. */
  function Papers(r: EconBizResponse): seq<Paper> {
    r.hits.hits
  }

  /** The `(id, url)` pairs of the papers with a non-empty first locator. */
  function PdfUrls(papers: seq<Paper>): (r: seq<(string, string)>)
    ensures |r| <= |papers|
    ensures forall k :: 0 <= k < |r| ==> r[k].1 != ""
    ensures forall e :: e in r <==>
      exists i :: 0 <= i < |papers| && HasPdf(papers[i]) && PdfEntry(papers[i]) == e
    decreases |papers|
  {
    if |papers| == 0 then []
    else (if HasPdf(papers[0]) then [PdfEntry(papers[0])] else []) + PdfUrls(papers[1..])
  }

  /** The download targets of a whole response. */
  function GetPdfUrls(r: EconBizResponse): (u: seq<(string, string)>)
    ensures |u| <= |Papers(r)|
    ensures forall e :: e in u <==>
      exists i :: 0 <= i < |Papers(r)| && HasPdf(Papers(r)[i]) && PdfEntry(Papers(r)[i]) == e
  {
    PdfUrls(Papers(r))
  }

  /** Extraction distributes over concatenation of hit lists, so its result
      keeps the hit order: the pairs of earlier papers come first. */
  lemma {:induction false} PdfUrlsAppend(a: seq<Paper>, b: seq<Paper>)
    ensures PdfUrls(a + b) == PdfUrls(a) + PdfUrls(b)
    decreases |a|
  {
    if |a| > 0 {
      assert (a + b)[1..] == a[1..] + b;
      PdfUrlsAppend(a[1..], b);
    } else {
      assert a + b == b;
    }
  }

  /** On one paper, extraction yields its pair exactly when it has a PDF. */
  lemma PdfUrlsSingle(p: Paper)
    ensures HasPdf(p) ==> PdfUrls([p]) == [PdfEntry(p)]
    ensures !HasPdf(p) ==> PdfUrls([p]) == []
  {
    assert [p][1..] == [];
  }

  /** When every paper has a PDF, extraction keeps all of them, in order. */
  lemma {:induction false} PdfUrlsKeepsAll(papers: seq<Paper>)
    requires forall i :: 0 <= i < |papers| ==> HasPdf(papers[i])
    ensures |PdfUrls(papers)| == |papers|
    ensures forall i :: 0 <= i < |papers| ==> PdfUrls(papers)[i] == PdfEntry(papers[i])
    decreases |papers|
  {
    if |papers| > 0 {
      PdfUrlsKeepsAll(papers[1..]);
    }
  }

  /** A first locator that is the empty string is reported by `PdfUrl`
      but never becomes a download target. */
  lemma EmptyFirstUrlSkipped(p: Paper, rest: seq<string>)
    requires p.identifierUrl == Some([""] + rest)
    ensures PdfUrl(p) == Some("")
    ensures PdfUrls([p]) == []
  {
    PdfUrlsSingle(p);
  }
}
