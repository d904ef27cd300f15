/** The three providers' native articles, the six field mappings of
    `NewsAggregatorService` (three fetch, three search) and the request each
    search sends. Network calls are not here: an adapter's answer is an input
    (see module Aggregator). */
module Providers {
  import opened Wrappers
  import opened Text
  import opened ArticleModel
  import Json

  const NewsApiName := "News API"
  const GuardianName := "The Guardian"
  const NytName := "New York Times API"

  /** The current instant and Carbon's parser. `parse` answers `None` where
      `Carbon::parse` throws. */
  datatype Clock = Clock(now: Timestamp, parse: string -> Option<Timestamp>)

  /** `formatPublishedDate`: a falsy input (null, "" or "0") means now, any
      other text is parsed. The result is never empty: it is an instant, or
      the parse throws (`None`). `$x ?? now()` as used for the NYT dates gives
      the same result, since a missing date is falsy. */
  function FormatPublishedDate(x: Option<string>, clock: Clock): (r: Option<Timestamp>)
    ensures !Truthy(x) ==> r == Some(clock.now)
    ensures Truthy(x) ==> r == clock.parse(x.value)
  {
    if Truthy(x) then clock.parse(x.value) else Some(clock.now)
  }

  // ---------------------------------------------------------------- native shapes

  /** An article object of the NewsAPI SDK. Only `author` is read through `??`. */
  datatype NewsApiArticle = NewsApiArticle(
    url: Field<string>, title: Field<string>, author: Option<string>,
    description: Field<string>, publishedAt: Field<string>)

  /** A Guardian content result; `byline` and `description` are read from its
      `fields`, through `??` like `sectionName` and `pillarName`. */
  datatype GuardianResult = GuardianResult(
    webUrl: Field<string>, webTitle: Field<string>, byline: Option<string>,
    description: Option<string>, sectionName: Option<string>,
    pillarName: Option<string>, webPublicationDate: Field<string>)

  /** An entry of a NYT search document's `keywords`; `value` is `None` when
      the entry has no `value` key. */
  datatype NytKeyword = NytKeyword(value: Option<string>)

  /** A NYT article-search document. Only `web_url` is read without `??`. */
  datatype NytDoc = NytDoc(
    webUrl: Field<string>, headlineMain: Option<string>, bylineOriginal: Option<string>,
    snippet: Option<string>, sectionName: Option<string>,
    keywords: Option<seq<NytKeyword>>, pubDate: Option<string>)

  /** A NYT most-viewed result; `desFacet` is whatever JSON value the feed
      holds. `url`, `title` and `abstract` are read without `??`. */
  datatype NytPopular = NytPopular(
    url: Field<string>, title: Field<string>, byline: Option<string>,
    abstractText: Field<string>, section: Option<string>,
    desFacet: Option<Json.Json>, publishedDate: Option<string>)

  /** A url usable as the `updateOrCreate` key: present and not null. A null
      url reaches the database as `url = null`; the model takes the `url`
      column to be NOT NULL, so that write throws. */
  predicate KeyUrl(u: Field<string>) {
    u.Present? && u.value.Some?
  }

  /** Building a NewsAPI row does not throw: every property read without `??`
      is there, and the date formats. */
  predicate NewsApiReads(a: NewsApiArticle, clock: Clock) {
    && KeyUrl(a.url) && a.title.Present? && a.description.Present? && a.publishedAt.Present?
    && FormatPublishedDate(a.publishedAt.value, clock).Some?
  }

  predicate GuardianReads(g: GuardianResult, clock: Clock) {
    && KeyUrl(g.webUrl) && g.webTitle.Present? && g.webPublicationDate.Present?
    && FormatPublishedDate(g.webPublicationDate.value, clock).Some?
  }

  predicate NytDocReads(d: NytDoc, clock: Clock) {
    KeyUrl(d.webUrl) && FormatPublishedDate(d.pubDate, clock).Some?
  }

  predicate NytPopularReads(n: NytPopular, clock: Clock) {
    && KeyUrl(n.url) && n.title.Present? && n.abstractText.Present?
    && FormatPublishedDate(n.publishedDate, clock).Some?
  }

  // ---------------------------------------------------------------- fetch mappers

  /** `fetchNewsApi`'s row: the headline request has no query and no category,
      so tags are `[null]` and the category is "General". */
  function NewsApiFetchRow(a: NewsApiArticle, clock: Clock): (r: Option<Article>)
    ensures r.Some? <==> NewsApiReads(a, clock)
    ensures r.Some? ==> && r.value.url == a.url.value.value
                        && r.value.title == a.title.value
                        && r.value.author == a.author.GetOr("Unknown")
                        && r.value.description == a.description.value
                        && r.value.source == NewsApiName
                        && r.value.category == "General"
                        && r.value.Tags() == Some(Json.JArray([Json.JNull]))
                        && r.value.publishedAt == FormatPublishedDate(a.publishedAt.value, clock).value
  {
    if !NewsApiReads(a, clock) then None
    else
      Some(Fill(a.url.value.value,
                Attributes(a.title.value, a.author.GetOr("Unknown"), a.description.value, NewsApiName,
                           "General", Json.JArray([Json.JNull]), None,
                           FormatPublishedDate(a.publishedAt.value, clock).value)))
  }

  /** `fetchGuardianApi`'s row: no description, and the tags attribute is
      already-encoded JSON text, so the cast stores a JSON string. */
  function GuardianFetchRow(g: GuardianResult, clock: Clock): (r: Option<Article>)
    ensures r.Some? <==> GuardianReads(g, clock)
    ensures r.Some? ==> && r.value.url == g.webUrl.value.value
                        && r.value.title == g.webTitle.value
                        && r.value.author == g.byline.GetOr("Unknown")
                        && r.value.description == None
                        && r.value.source == GuardianName
                        && r.value.category == g.sectionName.GetOr("General")
                        && r.value.Tags() == Some(Json.JString(Json.Encode(Json.JArray([Json.JString(g.pillarName.GetOr("News"))]))))
                        && r.value.publishedAt == FormatPublishedDate(g.webPublicationDate.value, clock).value
  {
    if !GuardianReads(g, clock) then None
    else
      var tags := Json.JString(Json.Encode(Json.JArray([Json.JString(g.pillarName.GetOr("News"))])));
      Some(Fill(g.webUrl.value.value,
                Attributes(g.webTitle.value, g.byline.GetOr("Unknown"), None, GuardianName,
                           g.sectionName.GetOr("General"), tags, Some("en"),
                           FormatPublishedDate(g.webPublicationDate.value, clock).value)))
  }

  /** `fetchNytApi`'s row: tags are the encoded `des_facet` (["News"] when
      missing), stored as a JSON string. */
  function NytFetchRow(n: NytPopular, clock: Clock): (r: Option<Article>)
    ensures r.Some? <==> NytPopularReads(n, clock)
    ensures r.Some? ==> && r.value.url == n.url.value.value
                        && r.value.title == n.title.value
                        && r.value.author == n.byline.GetOr("Unknown")
                        && r.value.description == n.abstractText.value
                        && r.value.source == NytName
                        && r.value.category == n.section.GetOr("General")
                        && r.value.Tags() == Some(Json.JString(Json.Encode(n.desFacet.GetOr(Json.JArray([Json.JString("News")])))))
                        && r.value.publishedAt == FormatPublishedDate(n.publishedDate, clock).value
  {
    if !NytPopularReads(n, clock) then None
    else
      var tags := Json.JString(Json.Encode(n.desFacet.GetOr(Json.JArray([Json.JString("News")]))));
      Some(Fill(n.url.value.value,
                Attributes(n.title.value, n.byline.GetOr("Unknown"), n.abstractText.value, NytName,
                           n.section.GetOr("General"), tags, Some("en"),
                           FormatPublishedDate(n.publishedDate, clock).value)))
  }

  // ---------------------------------------------------------------- search mappers

  /** The `[$query]` tag list of a NewsAPI search: `[null]` without a query. */
  function QueryTag(query: Option<string>): Json.Json {
    match query
    case Some(q) => Json.JArray([Json.JString(q)])
    case None => Json.JArray([Json.JNull])
  }

  /** `SearchNewsApi`'s row: the category is the request's, else "General";
      the tags are the request's search text. */
  function NewsApiSearchRow(a: NewsApiArticle, params: map<string, Option<string>>, clock: Clock): (r: Option<Article>)
    ensures r.Some? <==> NewsApiReads(a, clock)
    ensures r.Some? ==> && r.value.url == a.url.value.value
                        && r.value.title == a.title.value
                        && r.value.author == a.author.GetOr("Unknown")
                        && r.value.description == a.description.value
                        && r.value.source == NewsApiName
                        && r.value.category == Lookup(params, "category").GetOr("General")
                        && r.value.Tags() == Some(QueryTag(Lookup(params, "search")))
                        && r.value.publishedAt == FormatPublishedDate(a.publishedAt.value, clock).value
  {
    if !NewsApiReads(a, clock) then None
    else
      Some(Fill(a.url.value.value,
                Attributes(a.title.value, a.author.GetOr("Unknown"), a.description.value, NewsApiName,
                           Lookup(params, "category").GetOr("General"),
                           QueryTag(Lookup(params, "search")), None,
                           FormatPublishedDate(a.publishedAt.value, clock).value)))
  }

  /** `SearchGuardianApi`'s row: defaults for description, category and the
      one-element tag list. */
  function GuardianSearchRow(g: GuardianResult, clock: Clock): (r: Option<Article>)
    ensures r.Some? <==> GuardianReads(g, clock)
    ensures r.Some? ==> && r.value.url == g.webUrl.value.value
                        && r.value.title == g.webTitle.value
                        && r.value.author == g.byline.GetOr("Unknown")
                        && r.value.description == Some(g.description.GetOr("No description available"))
                        && r.value.source == GuardianName
                        && r.value.category == g.sectionName.GetOr("General")
                        && r.value.Tags() == Some(Json.JArray([Json.JString(g.pillarName.GetOr("News"))]))
                        && r.value.publishedAt == FormatPublishedDate(g.webPublicationDate.value, clock).value
  {
    if !GuardianReads(g, clock) then None
    else
      Some(Fill(g.webUrl.value.value,
                Attributes(g.webTitle.value, g.byline.GetOr("Unknown"),
                           Some(g.description.GetOr("No description available")), GuardianName,
                           g.sectionName.GetOr("General"),
                           Json.JArray([Json.JString(g.pillarName.GetOr("News"))]), None,
                           FormatPublishedDate(g.webPublicationDate.value, clock).value)))
  }

  /** `array_column($keywords, 'value')`: the values in order, skipping
      entries without one. */
  function KeywordValues(keywords: seq<NytKeyword>): (r: seq<string>)
    ensures |r| <= |keywords|
    ensures forall i :: 0 <= i < |keywords| && keywords[i].value.Some? ==> keywords[i].value.value in r
    ensures forall x :: x in r ==> exists i :: 0 <= i < |keywords| && keywords[i].value == Some(x)
    decreases |keywords|
  {
    if |keywords| == 0 then []
    else
      var rest := KeywordValues(keywords[1..]);
      assert forall i :: 1 <= i < |keywords| ==> keywords[i] == keywords[1..][i - 1];
      match keywords[0].value
      case Some(v) => [v] + rest
      case None => rest
  }

  /** `array_column` keeps input order: the values of two keyword lists
      one after the other are the values of the first, then of the second. */
  lemma {:induction false} KeywordValuesConcat(a: seq<NytKeyword>, b: seq<NytKeyword>)
    ensures KeywordValues(a + b) == KeywordValues(a) + KeywordValues(b)
    decreases |a|
  {
    if |a| == 0 {
      assert a + b == b;
    } else {
      assert (a + b)[1..] == a[1..] + b;
      KeywordValuesConcat(a[1..], b);
    }
  }

  function Strings(xs: seq<string>): (r: seq<Json.Json>)
    ensures |r| == |xs| && forall i :: 0 <= i < |xs| ==> r[i] == Json.JString(xs[i])
  {
    seq(|xs|, i requires 0 <= i < |xs| => Json.JString(xs[i]))
  }

  /** `SearchNytApi`'s row: title defaults to "No Title", and the tags are the
      keyword values in input order. */
  function NytSearchRow(d: NytDoc, clock: Clock): (r: Option<Article>)
    ensures r.Some? <==> NytDocReads(d, clock)
    ensures r.Some? ==> && r.value.url == d.webUrl.value.value
                        && r.value.title == Some(d.headlineMain.GetOr("No Title"))
                        && r.value.author == d.bylineOriginal.GetOr("Unknown")
                        && r.value.description == Some(d.snippet.GetOr("No description available"))
                        && r.value.source == NytName
                        && r.value.category == d.sectionName.GetOr("General")
                        && r.value.Tags() == Some(Json.JArray(Strings(KeywordValues(d.keywords.GetOr([])))))
                        && r.value.publishedAt == FormatPublishedDate(d.pubDate, clock).value
  {
    if !NytDocReads(d, clock) then None
    else
      Some(Fill(d.webUrl.value.value,
                Attributes(Some(d.headlineMain.GetOr("No Title")), d.bylineOriginal.GetOr("Unknown"),
                           Some(d.snippet.GetOr("No description available")), NytName,
                           d.sectionName.GetOr("General"),
                           Json.JArray(Strings(KeywordValues(d.keywords.GetOr([])))), None,
                           FormatPublishedDate(d.pubDate, clock).value)))
  }

  /** For the same Guardian result the fetch and the search mapping write the
      same identity, author, category and date, but differ in description and
      in how the tags read back: a list from search, a JSON string from fetch. */
  lemma GuardianFetchAndSearchDiffer(g: GuardianResult, clock: Clock)
    requires GuardianReads(g, clock)
    ensures var f := GuardianFetchRow(g, clock).value;
            var s := GuardianSearchRow(g, clock).value;
            && f.url == s.url && f.title == s.title && f.author == s.author
            && f.source == s.source && f.category == s.category && f.publishedAt == s.publishedAt
            && f.description == None && s.description.Some?
            && f.Tags().value.JString? && s.Tags().value.JArray?
            && f != s
  {
  }

  // ---------------------------------------------------------------- requests

  /** The NewsAPI SDK call an adapter makes. */
  datatype NewsApiRequest =
    | Everything(q: string, from: Option<string>, to: Option<string>, pageSize: int, page: int)
    | TopHeadlines(query: Option<string>, country: string, category: Option<string>, pageSize: int, page: int)

  /** `fetchNewsApi`'s request: US top headlines, 20 per page. */
  const NewsApiFetchRequest: NewsApiRequest := TopHeadlines(None, "us", None, 20, 1)

  /** `SearchNewsApi`'s request: the everything endpoint exactly when the
      search text is truthy, else US top headlines in the category. */
  function NewsApiSearchRequest(params: map<string, Option<string>>): (r: NewsApiRequest)
    ensures r.Everything? <==> Truthy(Lookup(params, "search"))
    ensures r.Everything? ==> r.q == Lookup(params, "search").value
                              && r.from == Lookup(params, "from") && r.to == Lookup(params, "to")
    ensures r.TopHeadlines? ==> !Truthy(r.query) && r.country == "us"
                                && r.category == Lookup(params, "category")
    ensures r.pageSize == 30 && r.page == 1
  {
    var query := Lookup(params, "search");
    if Truthy(query) then Everything(query.value, Lookup(params, "from"), Lookup(params, "to"), 30, 1)
    else TopHeadlines(query, "us", Lookup(params, "category"), 30, 1)
  }

  /** The Guardian content query an adapter builds. */
  datatype GuardianQuery = GuardianQuery(
    q: string, fromDate: string, toDate: string, section: Option<string>,
    showTags: string, showFields: string, orderBy: string)

  /** `fetchGuardianApi`'s query: "latest" over the last day. */
  const GuardianFetchQuery: GuardianQuery :=
    GuardianQuery("latest", "-1 day", "now", None, "contributor", "headline,thumbnail,short-url,byline", "newest")

  /** `SearchGuardianApi`'s query: `search ?: category` as the query text, the
      category as section, and from/to defaulting to the last thirty days. */
  function GuardianSearchQuery(params: map<string, Option<string>>): (r: GuardianQuery)
    ensures Truthy(Lookup(params, "search")) ==> r.q == Lookup(params, "search").value
    ensures !Truthy(Lookup(params, "search")) ==> r.q == Lookup(params, "category").GetOr("")
    ensures r.fromDate == Lookup(params, "from").GetOr("-30 days")
    ensures r.toDate == Lookup(params, "to").GetOr("now")
    ensures r.section == Some(Lookup(params, "category").GetOr(""))
    ensures r.orderBy == "newest"
  {
    var search := Lookup(params, "search").GetOr("");
    var category := Lookup(params, "category").GetOr("");
    GuardianQuery(if Truthy(Some(search)) then search else category,
                  Lookup(params, "from").GetOr("-30 days"), Lookup(params, "to").GetOr("now"),
                  Some(category), "contributor", "headline,short-url,byline", "newest")
  }

  /** `SearchNytApi`'s query string (the api key aside): q, page 0 and newest
      first always; `begin_date`, `end_date` and `fq` exactly when `from`, `to`
      and `category` are set. `ymd` is `date('Ymd', strtotime(...))`. */
  function NytSearchQuery(params: map<string, Option<string>>, ymd: string -> string): (r: map<string, Option<string>>)
    ensures "q" in r && r["q"] == Lookup(params, "search")
    ensures "page" in r && r["page"] == Some("0")
    ensures "sort" in r && r["sort"] == Some("newest")
    ensures "begin_date" in r <==> Lookup(params, "from").Some?
    ensures "begin_date" in r ==> r["begin_date"] == Some(ymd(Lookup(params, "from").value))
    ensures "end_date" in r <==> Lookup(params, "to").Some?
    ensures "end_date" in r ==> r["end_date"] == Some(ymd(Lookup(params, "to").value))
    ensures "fq" in r <==> Lookup(params, "category").Some?
    ensures "fq" in r ==> r["fq"] == Some("section_name:(\"" + Lookup(params, "category").value + "\")")
    ensures r.Keys <= {"q", "page", "sort", "begin_date", "end_date", "fq"}
  {
    var base := map["q" := Lookup(params, "search"), "page" := Some("0"), "sort" := Some("newest")];
    var withFrom := if Lookup(params, "from").Some? then base["begin_date" := Some(ymd(Lookup(params, "from").value))] else base;
    var withTo := if Lookup(params, "to").Some? then withFrom["end_date" := Some(ymd(Lookup(params, "to").value))] else withFrom;
    if Lookup(params, "category").Some?
    then withTo["fq" := Some("section_name:(\"" + Lookup(params, "category").value + "\")")]
    else withTo
  }
}
