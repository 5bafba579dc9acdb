/** The search call: the request parameters it sends, how it turns the
    service's reply into a response record (or nothing), and where it saves
    that record. The HTTP exchange is a parameter: a `Reply` says what the
    service answered, or that the transport failed. */
module Api {
  import opened Text
  import opened Json
  import opened Models
  import opened Files
  import Http
  import Listing

  const DefaultSize := 10
  const DefaultSort := "date desc"
  const DefaultFrom := 1
  const DefaultHighlight := true
  const DefaultFacets := "language person subject type_genre isPartOf"

  /** Every search is restricted to the econstor source. */
  const SourceFilter := "source:\"econstor\""

  /** The caller's choices for one search. */
  datatype SearchArgs = SearchArgs(
    query: string,
    highlight: bool,
    sort: string,
    fromResult: int,
    size: int,
    facets: string)

  /** A search for `query` with every other argument left at its default. */
  function DefaultArgs(query: string): (a: SearchArgs)
    ensures Params(a)["q"] == Str(query)
    ensures Params(a)["highlight"] == Bool(true)
    ensures Params(a)["sort"] == Str("date desc")
    ensures Params(a)["from"] == Num(1)
    ensures Params(a)["size"] == Num(10)
    ensures Params(a)["facets"] == Str("language person subject type_genre isPartOf")
  {
    SearchArgs(query, DefaultHighlight, DefaultSort, DefaultFrom, DefaultSize, DefaultFacets)
  }

  const ParamKeys: set<string> := {"q", "highlight", "sort", "ff", "from", "size", "facets"}

  /** The query parameters sent with the request, also kept in the
      response record as its search parameters. */
  function Params(a: SearchArgs): (m: map<string, Value>)
    ensures m.Keys == ParamKeys
    ensures m["ff"] == Str(SourceFilter)
    ensures ReadParams(m) == Some(a)
  {
    map[
      "q" := Str(a.query),
      "highlight" := Bool(a.highlight),
      "sort" := Str(a.sort),
      "ff" := Str(SourceFilter),
      "from" := Num(a.fromResult),
      "size" := Num(a.size),
      "facets" := Str(a.facets)]
  }

  /** Recovers the arguments from a parameter map, if it is one that
      `Params` can produce. */
  function ReadParams(m: map<string, Value>): Option<SearchArgs> {
    if && m.Keys == ParamKeys
       && m["q"].Str? && m["highlight"].Bool? && m["sort"].Str?
       && m["ff"] == Str(SourceFilter)
       && m["from"].Num? && m["size"].Num? && m["facets"].Str?
    then Some(SearchArgs(m["q"].s, m["highlight"].b, m["sort"].s, m["from"].n, m["size"].n, m["facets"].s))
    else None
  }

  /** Every map that reads back as arguments is the parameter map of those
      arguments; with the read-back `Params` promises, `Params` is a bijection onto the
      maps `ReadParams` accepts. */
  lemma ReadParamsExact(m: map<string, Value>)
    requires ReadParams(m).Some?
    ensures Params(ReadParams(m).value) == m
  {
    var p := Params(ReadParams(m).value);
    forall k | k in ParamKeys
      ensures p[k] == m[k]
    {
    }
  }

  /* ---------------------------------------------------------------------
     Reading the payload into records.
     --------------------------------------------------------------------- */

  /** The value under `key`, with a missing key read as null. */
  function FieldOf(fields: map<string, Value>, key: string): Value {
    if key in fields then fields[key] else Null
  }

  /** The strings of an array whose items are all strings. */
  function StringItems(items: seq<Value>): (r: Option<seq<string>>)
    ensures r.Some? <==> forall i :: 0 <= i < |items| ==> items[i].Str?
    ensures r.Some? ==> |r.value| == |items| && forall i :: 0 <= i < |items| ==> r.value[i] == items[i].s
    decreases |items|
  {
    if |items| == 0 then Some([])
    else if !items[0].Str? then None
    else
      match StringItems(items[1..])
      case None => None
      case Some(rest) => Some([items[0].s] + rest)
  }

  /** A value an optional list-of-strings field accepts: null (a missing
      key reads as null) or an array whose items are all strings. */
  predicate ListShaped(v: Value) {
    v.Null? || (v.Arr? && forall i :: 0 <= i < |v.items| ==> v.items[i].Str?)
  }

  /** The payload value `v` stands for the field value `field`: null for no
      list, an array for the list of its strings, in order. */
  predicate Denotes(v: Value, field: Option<seq<string>>) {
    || (v.Null? && field.None?)
    || (v.Arr? && field.Some? && |field.value| == |v.items|
        && forall i :: 0 <= i < |v.items| ==> v.items[i] == Str(field.value[i]))
  }

  /** A payload value stands for at most one field value. */
  lemma DenotesUnique(v: Value, a: Option<seq<string>>, b: Option<seq<string>>)
    requires Denotes(v, a) && Denotes(v, b)
    ensures a == b
  {
    if v.Arr? {
      assert forall i :: 0 <= i < |v.items| ==> a.value[i] == v.items[i].s == b.value[i];
      assert a.value == b.value;
    }
  }

  /** An optional list-of-strings field: null (or missing) gives no list,
      an array of strings gives the list, anything else is rejected
      (outer `None`). */
  function OptionalList(v: Value): (r: Option<Option<seq<string>>>)
    ensures r.Some? <==> ListShaped(v)
    ensures r.Some? ==> Denotes(v, r.value)
  {
    match v
    case Null => Some(None)
    case Arr(items) =>
      (match StringItems(items)
       case None => None
       case Some(xs) => Some(Some(xs)))
    case _ => None
  }

  /** A hit the paper record accepts: an object with a string `id` whose six
      list fields are each missing, null or an array of strings. Other keys
      may hold anything. */
  predicate PaperShaped(v: Value) {
    && v.Obj? && "id" in v.fields && v.fields["id"].Str?
    && ListShaped(FieldOf(v.fields, "title"))
    && ListShaped(FieldOf(v.fields, "creator_name"))
    && ListShaped(FieldOf(v.fields, "identifier_url"))
    && ListShaped(FieldOf(v.fields, "date"))
    && ListShaped(FieldOf(v.fields, "abstract"))
    && ListShaped(FieldOf(v.fields, "subject"))
  }

  /** The hit `v` stands for the paper `p`: its `id` is `p.id` and each list
      field, with a missing key read as null, stands for `p`'s list. */
  predicate PaperDenotes(v: Value, p: Paper) {
    && v.Obj? && "id" in v.fields && v.fields["id"] == Str(p.id)
    && Denotes(FieldOf(v.fields, "title"), p.title)
    && Denotes(FieldOf(v.fields, "creator_name"), p.creatorName)
    && Denotes(FieldOf(v.fields, "identifier_url"), p.identifierUrl)
    && Denotes(FieldOf(v.fields, "date"), p.date)
    && Denotes(FieldOf(v.fields, "abstract"), p.summary)
    && Denotes(FieldOf(v.fields, "subject"), p.subject)
  }

  /** One hit, by the field names the service uses; extra fields are ignored. */
  function ParsePaper(v: Value): (r: Option<Paper>)
    ensures r.Some? <==> PaperShaped(v)
    ensures r.Some? ==> PaperDenotes(v, r.value)
  {
    if !v.Obj? || "id" !in v.fields || !v.fields["id"].Str? then None
    else
      var f := v.fields;
      var title := OptionalList(FieldOf(f, "title"));
      var creator := OptionalList(FieldOf(f, "creator_name"));
      var url := OptionalList(FieldOf(f, "identifier_url"));
      var date := OptionalList(FieldOf(f, "date"));
      var summary := OptionalList(FieldOf(f, "abstract"));
      var subject := OptionalList(FieldOf(f, "subject"));
      if title.None? || creator.None? || url.None? || date.None? || summary.None? || subject.None? then None
      else Some(Paper(f["id"].s, title.value, creator.value, url.value, date.value, summary.value, subject.value))
  }

  /** A hit parses to exactly the paper it stands for. */
  lemma ParsePaperExact(v: Value, p: Paper)
    ensures ParsePaper(v) == Some(p) <==> PaperDenotes(v, p)
  {
    if PaperDenotes(v, p) {
      var f := v.fields;
      assert PaperShaped(v);
      var q := ParsePaper(v).value;
      DenotesUnique(FieldOf(f, "title"), p.title, q.title);
      DenotesUnique(FieldOf(f, "creator_name"), p.creatorName, q.creatorName);
      DenotesUnique(FieldOf(f, "identifier_url"), p.identifierUrl, q.identifierUrl);
      DenotesUnique(FieldOf(f, "date"), p.date, q.date);
      DenotesUnique(FieldOf(f, "abstract"), p.summary, q.summary);
      DenotesUnique(FieldOf(f, "subject"), p.subject, q.subject);
    }
  }

  /** A key the paper record does not declare plays no part in parsing. */
  lemma ParsePaperIgnoresExtraKeys(fields: map<string, Value>, key: string, x: Value)
    requires key !in {"id", "title", "creator_name", "identifier_url", "date", "abstract", "subject"}
    ensures ParsePaper(Obj(fields[key := x])) == ParsePaper(Obj(fields))
  {
    var g := fields[key := x];
    assert FieldOf(g, "title") == FieldOf(fields, "title");
    assert FieldOf(g, "creator_name") == FieldOf(fields, "creator_name");
    assert FieldOf(g, "identifier_url") == FieldOf(fields, "identifier_url");
    assert FieldOf(g, "date") == FieldOf(fields, "date");
    assert FieldOf(g, "abstract") == FieldOf(fields, "abstract");
    assert FieldOf(g, "subject") == FieldOf(fields, "subject");
  }

  /** Every hit, in payload order; one rejected hit rejects them all. */
  function ParsePapers(items: seq<Value>): (r: Option<seq<Paper>>)
    ensures r.Some? <==> forall i :: 0 <= i < |items| ==> ParsePaper(items[i]).Some?
    ensures r.Some? ==> |r.value| == |items|
    ensures r.Some? ==> forall i :: 0 <= i < |items| ==> r.value[i] == ParsePaper(items[i]).value
    decreases |items|
  {
    if |items| == 0 then Some([])
    else
      match ParsePaper(items[0])
      case None => None
      case Some(p) =>
        match ParsePapers(items[1..])
        case None => None
        case Some(rest) => Some([p] + rest)
  }

  /** What iterating the hits value yields: the items of an array; nothing
      from an empty object or empty string; a non-empty object or string
      yields keys or characters, which cannot be unpacked into a hit, and
      any other value cannot be iterated at all. */
  function HitItems(v: Value): (r: Option<seq<Value>>)
    ensures r.Some? <==> v.Arr? || v == Obj(map[]) || v == Str("")
    ensures v.Arr? ==> r == Some(v.items)
    ensures r.Some? && !v.Arr? ==> r.value == []
  {
    match v
    case Arr(items) => Some(items)
    case Obj(fields) => if |fields| == 0 then Some([]) else None
    case Str(s) => if s == "" then Some([]) else None
    case _ => None
  }

  /** The facets value: missing or null gives none, an object is kept,
      anything else is rejected (outer `None`). */
  function Facets(raw: map<string, Value>): (r: Option<Option<map<string, Value>>>)
    ensures r.Some? <==> "facets" !in raw || raw["facets"].Null? || raw["facets"].Obj?
    ensures r == Some(None) <==> "facets" !in raw || raw["facets"].Null?
    ensures r.Some? && r.value.Some? ==> "facets" in raw && raw["facets"] == Obj(r.value.value)
  {
    match FieldOf(raw, "facets")
    case Null => Some(None)
    case Obj(m) => Some(Some(m))
    case _ => None
  }

  /** The payload has the outline the record needs: an object whose `hits`
      is an object holding an integer `total` and a `hits` entry. */
  predicate PayloadShaped(raw: Value) {
    && raw.Obj? && "hits" in raw.fields && raw.fields["hits"].Obj?
    && "total" in raw.fields["hits"].fields && raw.fields["hits"].fields["total"].Num?
    && "hits" in raw.fields["hits"].fields
  }

  /** The payload's hit list value. */
  function PayloadHits(raw: Value): Value
    requires PayloadShaped(raw)
  {
    raw.fields["hits"].fields["hits"]
  }

  /** The response record built from a decoded payload, or `None` when any
      step of building it fails. */
  function ParseResponse(raw: Value, query: string, params: map<string, Value>, createdAt: string)
    : (r: Option<EconBizResponse>)
    ensures r.Some? <==>
      && PayloadShaped(raw)
      && HitItems(PayloadHits(raw)).Some?
      && ParsePapers(HitItems(PayloadHits(raw)).value).Some?
      && Facets(raw.fields).Some?
    ensures r.Some? ==> r.value.query == query && r.value.searchParams == params && r.value.timestamp == createdAt
    ensures r.Some? ==> raw.fields["hits"].fields["total"] == Num(r.value.hits.total)
    ensures r.Some? ==> ParsePapers(HitItems(PayloadHits(raw)).value) == Some(r.value.hits.hits)
    ensures r.Some? ==> Facets(raw.fields) == Some(r.value.facets)
  {
    if !raw.Obj? || "hits" !in raw.fields || !raw.fields["hits"].Obj? then None
    else
      var h := raw.fields["hits"].fields;
      if "total" !in h || !h["total"].Num? || "hits" !in h then None
      else
        match HitItems(h["hits"])
        case None => None
        case Some(items) =>
          match ParsePapers(items)
          case None => None
          case Some(papers) =>
            match Facets(raw.fields)
            case None => None
            case Some(facets) =>
              Some(EconBizResponse(SearchHits(h["total"].n, papers), facets, query, params, createdAt))
  }

  /** The papers of a record read from a payload are the payload's hits,
      one paper per hit, each standing for its hit, in payload order. */
  lemma ResponsePapers(raw: Value, query: string, params: map<string, Value>, createdAt: string)
    requires ParseResponse(raw, query, params, createdAt).Some?
    ensures var items := HitItems(PayloadHits(raw)).value;
      var papers := Papers(ParseResponse(raw, query, params, createdAt).value);
      && |papers| == |items|
      && forall i :: 0 <= i < |items| ==> PaperDenotes(items[i], papers[i])
  {
    var items := HitItems(PayloadHits(raw)).value;
    var papers := Papers(ParseResponse(raw, query, params, createdAt).value);
    forall i | 0 <= i < |items|
      ensures PaperDenotes(items[i], papers[i])
    {
      assert papers[i] == ParsePaper(items[i]).value;
    }
  }

  /** A hit with only an id, a title and a locator value. */
  function SparseHit(id: string, title: string, url: Value): Value {
    Obj(map["id" := Str(id), "title" := Arr([Str(title)]), "identifier_url" := url])
  }

  /** A sparse hit reads as a paper whose other list fields are absent. */
  lemma SparseHitParses(id: string, title: string, url: Value, locators: Option<seq<string>>)
    requires Denotes(url, locators)
    ensures ParsePaper(SparseHit(id, title, url)) == Some(Paper(id, Some([title]), None, locators, None, None, None))
  {
    var v := SparseHit(id, title, url);
    var p := Paper(id, Some([title]), None, locators, None, None, None);
    assert FieldOf(v.fields, "creator_name") == Null;
    assert FieldOf(v.fields, "date") == Null;
    assert FieldOf(v.fields, "abstract") == Null;
    assert FieldOf(v.fields, "subject") == Null;
    assert PaperDenotes(v, p);
    ParsePaperExact(v, p);
  }

  /** The three hits of a payload whose second paper has no locator. */
  function MissingPdfsHits(): seq<Value> {
    [ SparseHit("paper1", "Paper with PDF", Arr([Str("https://example.com/1.pdf")])),
      SparseHit("paper2", "Paper without PDF", Null),
      SparseHit("paper3", "Another paper with PDF", Arr([Str("https://example.com/3.pdf")])) ]
  }

  /** The papers those hits stand for. */
  function MissingPdfsPapers(): seq<Paper> {
    [ Paper("paper1", Some(["Paper with PDF"]), None, Some(["https://example.com/1.pdf"]), None, None, None),
      Paper("paper2", Some(["Paper without PDF"]), None, None, None, None, None),
      Paper("paper3", Some(["Another paper with PDF"]), None, Some(["https://example.com/3.pdf"]), None, None, None) ]
  }

  lemma MissingPdfsHitsParse()
    ensures ParsePapers(MissingPdfsHits()) == Some(MissingPdfsPapers())
  {
    var hs := MissingPdfsHits();
    var qs := MissingPdfsPapers();
    SparseHitParses("paper1", "Paper with PDF", Arr([Str("https://example.com/1.pdf")]), Some(["https://example.com/1.pdf"]));
    SparseHitParses("paper2", "Paper without PDF", Null, None);
    SparseHitParses("paper3", "Another paper with PDF", Arr([Str("https://example.com/3.pdf")]), Some(["https://example.com/3.pdf"]));
    assert ParsePaper(hs[0]) == Some(qs[0]);
    assert ParsePaper(hs[1]) == Some(qs[1]);
    assert ParsePaper(hs[2]) == Some(qs[2]);
    assert |hs| == |qs| == 3;
    assert ParsePapers(hs).value == qs;
  }

  lemma MissingPdfsTargets()
    ensures PdfUrls(MissingPdfsPapers()) == [("paper1", "https://example.com/1.pdf"), ("paper3", "https://example.com/3.pdf")]
  {
    var qs := MissingPdfsPapers();
    assert qs == [qs[0]] + ([qs[1]] + [qs[2]]);
    PdfUrlsSingle(qs[0]);
    PdfUrlsSingle(qs[1]);
    PdfUrlsSingle(qs[2]);
    PdfUrlsAppend([qs[1]], [qs[2]]);
    PdfUrlsAppend([qs[0]], [qs[1]] + [qs[2]]);
  }

  /** Hits that leave out most list fields, one with a null locator: all
      three become papers, and the other two are the download targets, in
      hit order. */
  lemma MissingPdfsPayload(params: map<string, Value>, createdAt: string)
    ensures var raw := Obj(map["hits" := Obj(map["total" := Num(3), "hits" := Arr(MissingPdfsHits())])]);
      var r := ParseResponse(raw, "test", params, createdAt);
      && r.Some?
      && |Papers(r.value)| == 3
      && GetPdfUrls(r.value) == [("paper1", "https://example.com/1.pdf"), ("paper3", "https://example.com/3.pdf")]
  {
    MissingPdfsHitsParse();
    MissingPdfsTargets();
    var raw := Obj(map["hits" := Obj(map["total" := Num(3), "hits" := Arr(MissingPdfsHits())])]);
    assert PayloadShaped(raw) && PayloadHits(raw) == Arr(MissingPdfsHits());
    assert Facets(raw.fields) == Some(None);
  }

  /* ---------------------------------------------------------------------
     The payload the service would send for a record; parsing inverts it.
     --------------------------------------------------------------------- */

  function ListValue(field: Option<seq<string>>): (v: Value)
    ensures field.None? ==> v == Null
    ensures field.Some? ==>
      (v.Arr? && |v.items| == |field.value| && forall i :: 0 <= i < |field.value| ==> v.items[i] == Str(field.value[i]))
  {
    match field
    case None => Null
    case Some(xs) => Arr(seq(|xs|, i requires 0 <= i < |xs| => Str(xs[i])))
  }

  function PaperValue(p: Paper): Value {
    Obj(map[
      "id" := Str(p.id),
      "title" := ListValue(p.title),
      "creator_name" := ListValue(p.creatorName),
      "identifier_url" := ListValue(p.identifierUrl),
      "date" := ListValue(p.date),
      "abstract" := ListValue(p.summary),
      "subject" := ListValue(p.subject)])
  }

  function PapersValue(papers: seq<Paper>): (items: seq<Value>)
    ensures |items| == |papers| && forall i :: 0 <= i < |papers| ==> items[i] == PaperValue(papers[i])
  {
    seq(|papers|, i requires 0 <= i < |papers| => PaperValue(papers[i]))
  }

  function ResponseValue(r: EconBizResponse): Value {
    var hits := Obj(map["total" := Num(r.hits.total), "hits" := Arr(PapersValue(r.hits.hits))]);
    match r.facets
    case None => Obj(map["hits" := hits])
    case Some(f) => Obj(map["hits" := hits, "facets" := Obj(f)])
  }

  lemma OptionalListInverse(field: Option<seq<string>>)
    ensures OptionalList(ListValue(field)) == Some(field)
  {
    if field.Some? {
      var v := ListValue(field);
      var xs := StringItems(v.items);
      assert xs.Some?;
      assert xs.value == field.value;
    }
  }

  /** Every paper record survives rendering as a payload hit and reading back. */
  lemma ParsePaperInverse(p: Paper)
    ensures ParsePaper(PaperValue(p)) == Some(p)
  {
    OptionalListInverse(p.title);
    OptionalListInverse(p.creatorName);
    OptionalListInverse(p.identifierUrl);
    OptionalListInverse(p.date);
    OptionalListInverse(p.summary);
    OptionalListInverse(p.subject);
  }

  /** A hit list survives rendering and reading back, in order. */
  lemma ParsePapersInverse(papers: seq<Paper>)
    ensures ParsePapers(PapersValue(papers)) == Some(papers)
  {
    var items := PapersValue(papers);
    forall i | 0 <= i < |items|
      ensures ParsePaper(items[i]) == Some(papers[i])
    {
      ParsePaperInverse(papers[i]);
    }
    assert ParsePapers(items).value == papers;
  }

  /** The rendered payload has the outline a record needs, with the
      record's total, hits and facets in their places. */
  lemma ResponseValueShape(r: EconBizResponse)
    ensures PayloadShaped(ResponseValue(r))
    ensures PayloadHits(ResponseValue(r)) == Arr(PapersValue(r.hits.hits))
    ensures ResponseValue(r).fields["hits"].fields["total"] == Num(r.hits.total)
    ensures Facets(ResponseValue(r).fields) == Some(r.facets)
  {
    var raw := ResponseValue(r);
    var h := raw.fields["hits"].fields;
    assert h["total"] == Num(r.hits.total) && h["hits"] == Arr(PapersValue(r.hits.hits));
  }

  /** A whole response survives rendering as a payload and reading back,
      given the query, parameters and creation time it was made with. */
  lemma ParseResponseInverse(r: EconBizResponse)
    ensures ParseResponse(ResponseValue(r), r.query, r.searchParams, r.timestamp) == Some(r)
  {
    var items := PapersValue(r.hits.hits);
    ParsePapersInverse(r.hits.hits);
    ResponseValueShape(r);
    assert HitItems(Arr(items)) == Some(items);
    var p := ParseResponse(ResponseValue(r), r.query, r.searchParams, r.timestamp);
    assert p.Some?;
    assert p.value.hits == r.hits;
  }

  /* ---------------------------------------------------------------------
     Saving a response.
     --------------------------------------------------------------------- */

  /** The query made safe for a file name: every space and every `/`
      becomes `_`, everything else is kept. */
  function SanitizeQuery(q: string): (r: string)
    ensures |r| == |q|
    ensures ' ' !in r && '/' !in r
    ensures forall i :: 0 <= i < |q| ==> r[i] == (if q[i] == ' ' || q[i] == '/' then '_' else q[i])
  {
    ReplaceChar(ReplaceChar(q, ' ', '_'), '/', '_')
  }

  /** Sanitising twice changes nothing more. */
  lemma SanitizeIdempotent(q: string)
    ensures SanitizeQuery(SanitizeQuery(q)) == SanitizeQuery(q)
  {
    var once := SanitizeQuery(q);
    var twice := SanitizeQuery(once);
    forall i | 0 <= i < |q|
      ensures twice[i] == once[i]
    {
      assert once[i] in once;
    }
  }

  /** A moment rendered as `%Y%m%d_%H%M%S`: eight digits, `_`, six digits. */
  predicate IsStamp(t: string) {
    && |t| == 15 && t[8] == '_'
    && AllDigits(t[..8]) && AllDigits(t[9..])
  }

  lemma StampHasNoSlash(t: string)
    requires IsStamp(t)
    ensures '/' !in t
  {
    forall i | 0 <= i < |t|
      ensures t[i] != '/'
    {
      if i < 8 {
        assert t[..8][i] == t[i];
      } else if i > 8 {
        assert t[9..][i - 9] == t[i];
      }
    }
  }

  /** `response_<sanitised query>_<stamp>.json`: a name the listing's glob
      matches, and, for a proper stamp, a bare name with no directory part. */
  function SaveFileName(query: string, stamp: string): (name: string)
    ensures Listing.MatchesResponseGlob(name)
    ensures IsStamp(stamp) ==> '/' !in name
  {
    var name := Listing.ResponsePrefix + SanitizeQuery(query) + "_" + stamp + Listing.ResponseSuffix;
    assert name[..|Listing.ResponsePrefix|] == Listing.ResponsePrefix;
    assert name[|name| - |Listing.ResponseSuffix|..] == Listing.ResponseSuffix;
    if IsStamp(stamp) then
      StampHasNoSlash(stamp);
      assert '/' !in name by {
        forall i | 0 <= i < |name|
          ensures name[i] != '/'
        {
          var s := SanitizeQuery(query);
          if 9 <= i < 9 + |s| {
            assert name[i] == s[i - 9];
            assert s[i - 9] in s;
          } else if 10 + |s| <= i < 10 + |s| + |stamp| {
            assert name[i] == stamp[i - 10 - |s|];
            assert stamp[i - 10 - |s|] in stamp;
          }
        }
      }
      name
    else
      name
  }

  /** Where a response is saved: for a proper stamp, directly inside the
      saved-responses directory. */
  function SavePath(query: string, stamp: string): (p: string)
    ensures IsStamp(stamp) ==> Parent(p) == Listing.SavedResponsesDir
  {
    var name := SaveFileName(query, stamp);
    if IsStamp(stamp) then
      ParentOfJoin(Listing.SavedResponsesDir, name);
      JoinPath(Listing.SavedResponsesDir, name)
    else
      JoinPath(Listing.SavedResponsesDir, name)
  }

  /** A saved response's file name is one the listing picks up, and the file
      lies directly in the saved-responses directory, whatever the query. */
  lemma SavedFileIsListed(query: string, stamp: string, entries: seq<string>)
    requires IsStamp(stamp)
    ensures Listing.MatchesResponseGlob(SaveFileName(query, stamp))
    ensures Parent(SavePath(query, stamp)) == Listing.SavedResponsesDir
    ensures SaveFileName(query, stamp) in entries ==>
      SaveFileName(query, stamp) in Listing.ListSavedResponses(Some(entries))
  {
    Listing.ListsExactlyMatching(entries, SaveFileName(query, stamp));
  }

  /** Saving: the file's directory is created as needed, then the file is
      written whole with the record's serialisation. Nothing else changes. */
  function SaveResponse(fs: FileSystem, response: EconBizResponse, query: string, stamp: string,
                        dump: EconBizResponse -> seq<Byte>): (r: FileSystem)
    ensures Read(r, SavePath(query, stamp)) == Some(dump(response))
    ensures forall p :: p != SavePath(query, stamp) ==> Read(r, p) == Read(fs, p)
    ensures fs.dirs <= r.dirs && DirExists(r, Parent(SavePath(query, stamp)))
  {
    var path := SavePath(query, stamp);
    var made := MakeDirs(fs, Parent(path));
    Write(made, path, dump(response))
  }

  /* ---------------------------------------------------------------------
     The search itself.
     --------------------------------------------------------------------- */

  /** The body of a reply: decoded JSON, or text that is not JSON. */
  datatype Body = Decoded(value: Value) | NotJson

  /** What the HTTP exchange produced: a transport-level failure (refused
      connection, timeout and the like), or a reply with a status. */
  datatype Reply = TransportFailure | Received(status: int, body: Body)

  /** The search returns a record or nothing, or an exception escapes it;
      `fs` is the file system afterwards. */
  datatype Outcome = Completed(result: Option<EconBizResponse>, fs: FileSystem) | Raised

  /** One search. `createdAt` is the record's creation time, `stamp` the
      time used in the saved file's name, `dump` the serialiser. */
  function Search(args: SearchArgs, saveResponse: bool, reply: Reply, createdAt: string, stamp: string,
                  dump: EconBizResponse -> seq<Byte>, fs: FileSystem): (r: Outcome)
    ensures reply.TransportFailure? ==> r == Completed(None, fs)
    ensures reply.Received? && !Http.IsSuccess(reply.status) ==> r == Completed(None, fs)
    ensures reply.Received? && Http.IsSuccess(reply.status) && reply.body.NotJson? ==> r.Raised?
    ensures reply.Received? && Http.IsSuccess(reply.status) && reply.body.Decoded? && !PayloadShaped(reply.body.value) ==>
      r == Completed(None, fs)
    ensures reply.Received? && Http.IsSuccess(reply.status) && reply.body.Decoded? ==>
      r.Completed? && r.result == ParseResponse(reply.body.value, args.query, Params(args), createdAt)
    ensures r.Raised? ==> reply.Received? && reply.body.NotJson?
    ensures r.Completed? && r.result.Some? ==>
      && reply.Received? && Http.IsSuccess(reply.status) && reply.body.Decoded?
      && PayloadShaped(reply.body.value)
      && HitItems(PayloadHits(reply.body.value)).Some?
      && ParsePapers(HitItems(PayloadHits(reply.body.value)).value) == Some(Papers(r.result.value))
      && r.result.value.query == args.query
      && r.result.value.searchParams == Params(args)
      && r.result.value.timestamp == createdAt
    ensures r.Completed? && (r.result.None? || !saveResponse) ==> r.fs == fs
    ensures r.Completed? && r.result.Some? && saveResponse ==>
      Read(r.fs, SavePath(args.query, stamp)) == Some(dump(r.result.value))
  {
    match reply
    case TransportFailure => Completed(None, fs)
    case Received(status, body) =>
      if !Http.IsSuccess(status) then Completed(None, fs)
      else
        match body
        case NotJson => Raised
        case Decoded(raw) =>
          match ParseResponse(raw, args.query, Params(args), createdAt)
          case None => Completed(None, fs)
          case Some(response) =>
            if saveResponse then Completed(Some(response), SaveResponse(fs, response, args.query, stamp, dump))
            else Completed(Some(response), fs)
  }

  /** A successful reply carrying a payload yields exactly the record that
      payload describes, with the search's own query and parameters; the
      hits keep their payload order. */
  lemma SearchReturnsPayload(args: SearchArgs, saveResponse: bool, response: EconBizResponse, createdAt: string,
                             stamp: string, dump: EconBizResponse -> seq<Byte>, fs: FileSystem, status: int)
    requires Http.IsSuccess(status)
    requires response.query == args.query && response.searchParams == Params(args) && response.timestamp == createdAt
    ensures Search(args, saveResponse, Received(status, Decoded(ResponseValue(response))), createdAt, stamp, dump, fs).Completed?
    ensures Search(args, saveResponse, Received(status, Decoded(ResponseValue(response))), createdAt, stamp, dump, fs).result
      == Some(response)
  {
    ParseResponseInverse(response);
  }

  /** The download targets of a search's result are those of the payload's
      hits, in payload order. */
  lemma SearchPdfUrls(args: SearchArgs, saveResponse: bool, status: int, raw: Value, createdAt: string,
                      stamp: string, dump: EconBizResponse -> seq<Byte>, fs: FileSystem)
    requires Http.IsSuccess(status)
    requires raw.Obj? && "hits" in raw.fields && raw.fields["hits"].Obj?
    requires "hits" in raw.fields["hits"].fields && raw.fields["hits"].fields["hits"].Arr?
    requires Search(args, saveResponse, Received(status, Decoded(raw)), createdAt, stamp, dump, fs).result.Some?
    ensures var items := raw.fields["hits"].fields["hits"].items;
      && (forall i :: 0 <= i < |items| ==> ParsePaper(items[i]).Some?)
      && GetPdfUrls(Search(args, saveResponse, Received(status, Decoded(raw)), createdAt, stamp, dump, fs).result.value)
         == PdfUrls(seq(|items|, i requires 0 <= i < |items| && ParsePaper(items[i]).Some? => ParsePaper(items[i]).value))
  {
    var items := raw.fields["hits"].fields["hits"].items;
    var papers := ParsePapers(items).value;
    assert papers == seq(|items|, i requires 0 <= i < |items| && ParsePaper(items[i]).Some? => ParsePaper(items[i]).value);
  }
}
