/** `NewsAggregatorService`'s adapters and its two entry points,
    `fetchAllNews` and `allSearchApi`. Each adapter call to the outside world
    is an input: `None` stands for a thrown exception or, for the NYT, a failed
    HTTP response. The table threads through the calls in source order, and
    `calls` records which adapters ran. */
module Aggregator {
  import opened Wrappers
  import opened ArticleModel
  import opened ArticleStore
  import opened Providers
  import opened Ordering

  datatype Provider = NewsApi | Guardian | Nyt

  /** The `source` each adapter writes and a caller may select. */
  function SourceName(p: Provider): string {
    match p
    case NewsApi => NewsApiName
    case Guardian => GuardianName
    case Nyt => NytName
  }

  /** What the providers answer, and the clock. */
  datatype World = World(
    newsApi: NewsApiRequest -> Option<seq<NewsApiArticle>>,
    guardian: GuardianQuery -> Option<seq<GuardianResult>>,
    nytSearch: map<string, Option<string>> -> Option<seq<NytDoc>>,
    nytMostViewed: Option<seq<NytPopular>>,
    clock: Clock,
    ymd: string -> string)

  /** The result of running part of the service: its value, the table after
      it, and the adapters it called, in order. */
  datatype Run<T> = Run(value: T, table: Table, calls: seq<Provider>)

  type Params = map<string, Option<string>>

  // ------------------------------------------------------------ success conditions

  /** Every row of a batch builds without throwing. */
  predicate NewsApiBatchReads(articles: seq<NewsApiArticle>, clock: Clock) {
    forall i :: 0 <= i < |articles| ==> NewsApiReads(articles[i], clock)
  }

  predicate GuardianBatchReads(results: seq<GuardianResult>, clock: Clock) {
    forall i :: 0 <= i < |results| ==> GuardianReads(results[i], clock)
  }

  predicate NytDocBatchReads(docs: seq<NytDoc>, clock: Clock) {
    forall i :: 0 <= i < |docs| ==> NytDocReads(docs[i], clock)
  }

  predicate NytPopularBatchReads(results: seq<NytPopular>, clock: Clock) {
    forall i :: 0 <= i < |results| ==> NytPopularReads(results[i], clock)
  }

  /** The refresh's NewsAPI call answers and every row of it builds. */
  predicate NewsApiFetchOk(w: World) {
    w.newsApi(NewsApiFetchRequest).Some? && NewsApiBatchReads(w.newsApi(NewsApiFetchRequest).value, w.clock)
  }

  predicate GuardianFetchOk(w: World) {
    w.guardian(GuardianFetchQuery).Some? && GuardianBatchReads(w.guardian(GuardianFetchQuery).value, w.clock)
  }

  predicate NytFetchOk(w: World) {
    w.nytMostViewed.Some? && NytPopularBatchReads(w.nytMostViewed.value, w.clock)
  }

  // ------------------------------------------------------------ fetch adapters

  function NewsApiFetchRows(articles: seq<NewsApiArticle>, clock: Clock): (r: seq<Option<Article>>)
    ensures |r| == |articles| && forall i :: 0 <= i < |articles| ==> r[i] == NewsApiFetchRow(articles[i], clock)
  {
    seq(|articles|, i requires 0 <= i < |articles| => NewsApiFetchRow(articles[i], clock))
  }

  /** `fetchNewsApi`: true exactly when the call answered and every row built.
      The rows before the first one that throws stay written. */
  function FetchNewsApi(t: Table, w: World): (r: Run<bool>)
    ensures r.calls == [NewsApi]
    ensures r.value <==> NewsApiFetchOk(w)
    ensures w.newsApi(NewsApiFetchRequest).None? ==> r.table == t
    ensures w.newsApi(NewsApiFetchRequest).Some? ==>
              var rows := NewsApiFetchRows(w.newsApi(NewsApiFetchRequest).value, w.clock);
              r.table == UpsertAll(t, Values(rows[..Completed(rows)]))
  {
    match w.newsApi(NewsApiFetchRequest)
    case None => Run(false, t, [NewsApi])
    case Some(articles) =>
      var (t', created) := Ingest(t, NewsApiFetchRows(articles, w.clock));
      Run(created.Some?, t', [NewsApi])
  }

  function GuardianFetchRows(results: seq<GuardianResult>, clock: Clock): (r: seq<Option<Article>>)
    ensures |r| == |results| && forall i :: 0 <= i < |results| ==> r[i] == GuardianFetchRow(results[i], clock)
  {
    seq(|results|, i requires 0 <= i < |results| => GuardianFetchRow(results[i], clock))
  }

  /** `fetchGuardianApi` */
  function FetchGuardian(t: Table, w: World): (r: Run<bool>)
    ensures r.calls == [Guardian]
    ensures r.value <==> GuardianFetchOk(w)
    ensures w.guardian(GuardianFetchQuery).None? ==> r.table == t
    ensures w.guardian(GuardianFetchQuery).Some? ==>
              var rows := GuardianFetchRows(w.guardian(GuardianFetchQuery).value, w.clock);
              r.table == UpsertAll(t, Values(rows[..Completed(rows)]))
  {
    match w.guardian(GuardianFetchQuery)
    case None => Run(false, t, [Guardian])
    case Some(results) =>
      var (t', created) := Ingest(t, GuardianFetchRows(results, w.clock));
      Run(created.Some?, t', [Guardian])
  }

  function NytFetchRows(results: seq<NytPopular>, clock: Clock): (r: seq<Option<Article>>)
    ensures |r| == |results| && forall i :: 0 <= i < |results| ==> r[i] == NytFetchRow(results[i], clock)
  {
    seq(|results|, i requires 0 <= i < |results| => NytFetchRow(results[i], clock))
  }

  /** `fetchNytApi` */
  function FetchNyt(t: Table, w: World): (r: Run<bool>)
    ensures r.calls == [Nyt]
    ensures r.value <==> NytFetchOk(w)
    ensures w.nytMostViewed.None? ==> r.table == t
    ensures w.nytMostViewed.Some? ==>
              var rows := NytFetchRows(w.nytMostViewed.value, w.clock);
              r.table == UpsertAll(t, Values(rows[..Completed(rows)]))
  {
    match w.nytMostViewed
    case None => Run(false, t, [Nyt])
    case Some(results) =>
      var (t', created) := Ingest(t, NytFetchRows(results, w.clock));
      Run(created.Some?, t', [Nyt])
  }

  /** The rows the refresh's NewsAPI step writes: those before the first row
      that throws, and none when the call throws. */
  function NewsApiFetchWrites(w: World): seq<Article> {
    match w.newsApi(NewsApiFetchRequest)
    case None => []
    case Some(articles) =>
      var rows := NewsApiFetchRows(articles, w.clock);
      Values(rows[..Completed(rows)])
  }

  function GuardianFetchWrites(w: World): seq<Article> {
    match w.guardian(GuardianFetchQuery)
    case None => []
    case Some(results) =>
      var rows := GuardianFetchRows(results, w.clock);
      Values(rows[..Completed(rows)])
  }

  function NytFetchWrites(w: World): seq<Article> {
    match w.nytMostViewed
    case None => []
    case Some(results) =>
      var rows := NytFetchRows(results, w.clock);
      Values(rows[..Completed(rows)])
  }

  /** Three batches upserted one after the other keep one row per url. */
  lemma UpsertThreeKeepsUnique(t: Table, a: seq<Article>, b: seq<Article>, c: seq<Article>)
    ensures UniqueUrls(t) ==> UniqueUrls(UpsertAll(UpsertAll(UpsertAll(t, a), b), c))
  {
    if UniqueUrls(t) {
      UpsertAllMap(t, a);
      UpsertAllMap(UpsertAll(t, a), b);
      UpsertAllMap(UpsertAll(UpsertAll(t, a), b), c);
    }
  }

  /** `fetchAllNews`: all three fetchers run, once each and in order, whatever
      the earlier ones answered; the answer is true exactly when all three
      succeeded. Whatever each fetcher wrote before failing stays written, so
      the table is the three written batches upserted in order. */
  function FetchAll(t: Table, w: World): (r: Run<bool>)
    ensures r.calls == [NewsApi, Guardian, Nyt]
    ensures r.value <==> NewsApiFetchOk(w) && GuardianFetchOk(w) && NytFetchOk(w)
    ensures r.table == UpsertAll(UpsertAll(UpsertAll(t, NewsApiFetchWrites(w)), GuardianFetchWrites(w)),
                                 NytFetchWrites(w))
    ensures UniqueUrls(t) ==> UniqueUrls(r.table)
  {
    var news := FetchNewsApi(t, w);
    var guardian := FetchGuardian(news.table, w);
    var nyt := FetchNyt(guardian.table, w);
    assert news.calls + guardian.calls + nyt.calls == [NewsApi, Guardian, Nyt];
    UpsertThreeKeepsUnique(t, NewsApiFetchWrites(w), GuardianFetchWrites(w), NytFetchWrites(w));
    Run(news.value && guardian.value && nyt.value, nyt.table, news.calls + guardian.calls + nyt.calls)
  }

  /** A refresh in which every provider answers with parseable dates upserts
      the three mapped batches in order and keeps one row per url. */
  lemma FetchAllSucceeds(t: Table, w: World)
    requires UniqueUrls(t)
    requires NewsApiFetchOk(w) && GuardianFetchOk(w) && NytFetchOk(w)
    ensures var t1 := UpsertAll(t, Values(NewsApiFetchRows(w.newsApi(NewsApiFetchRequest).value, w.clock)));
            var t2 := UpsertAll(t1, Values(GuardianFetchRows(w.guardian(GuardianFetchQuery).value, w.clock)));
            FetchAll(t, w).table == UpsertAll(t2, Values(NytFetchRows(w.nytMostViewed.value, w.clock)))
    ensures UniqueUrls(FetchAll(t, w).table)
  {
    var news := FetchNewsApi(t, w);
    var guardian := FetchGuardian(news.table, w);
    var rows1 := NewsApiFetchRows(w.newsApi(NewsApiFetchRequest).value, w.clock);
    var rows2 := GuardianFetchRows(w.guardian(GuardianFetchQuery).value, w.clock);
    var rows3 := NytFetchRows(w.nytMostViewed.value, w.clock);
    assert rows1[..|rows1|] == rows1;
    assert rows2[..|rows2|] == rows2;
    assert rows3[..|rows3|] == rows3;
    UpsertAllMap(t, Values(rows1));
    UpsertAllMap(news.table, Values(rows2));
    UpsertAllMap(guardian.table, Values(rows3));
  }

  // ------------------------------------------------------------ search adapters

  /** A search adapter's loop over its built rows: the models when no row
      throws, with the rows before the first throw written either way. */
  function Adapt(t: Table, rows: seq<Option<Article>>, p: Provider): (r: Run<Option<seq<Article>>>)
    requires forall i :: 0 <= i < |rows| && rows[i].Some? ==> rows[i].value.source == SourceName(p)
    ensures r.calls == [p]
    ensures r.value.Some? ==> forall i :: 0 <= i < |r.value.value| ==> r.value.value[i].source == SourceName(p)
    ensures r.value.Some? <==> forall i :: 0 <= i < |rows| ==> rows[i].Some?
    ensures r.value.Some? ==> && |r.value.value| == |rows|
                              && (forall i :: 0 <= i < |rows| ==> rows[i] == Some(r.value.value[i]))
                              && r.table == UpsertAll(t, r.value.value)
    ensures r.table == UpsertAll(t, Values(rows[..Completed(rows)]))
  {
    IngestAnswerIsUpserted(t, rows);
    var (t', created) := Ingest(t, rows);
    Run(created, t', [p])
  }

  function NewsApiSearchRows(articles: seq<NewsApiArticle>, params: Params, clock: Clock): (r: seq<Option<Article>>)
    ensures |r| == |articles| && forall i :: 0 <= i < |articles| ==> r[i] == NewsApiSearchRow(articles[i], params, clock)
  {
    seq(|articles|, i requires 0 <= i < |articles| => NewsApiSearchRow(articles[i], params, clock))
  }

  /** `SearchNewsApi`: the mapped models, one per answer entry and in answer
      order, or `None` (false) when the call throws or a row does. The rows
      before the first one that throws stay written. */
  function SearchNewsApi(params: Params, t: Table, w: World): (r: Run<Option<seq<Article>>>)
    ensures r.calls == [NewsApi]
    ensures var answer := w.newsApi(NewsApiSearchRequest(params));
            && (r.value.Some? <==> answer.Some? && NewsApiBatchReads(answer.value, w.clock))
            && (r.value.Some? ==> && |r.value.value| == |answer.value|
                                  && (forall i :: 0 <= i < |answer.value| ==>
                                        NewsApiSearchRows(answer.value, params, w.clock)[i] == Some(r.value.value[i]))
                                  && r.table == UpsertAll(t, r.value.value))
            && (answer.None? ==> r.table == t)
            && (answer.Some? ==> var rows := NewsApiSearchRows(answer.value, params, w.clock);
                                 r.table == UpsertAll(t, Values(rows[..Completed(rows)])))
    ensures r.value.Some? ==> forall i :: 0 <= i < |r.value.value| ==> r.value.value[i].source == SourceName(NewsApi)
  {
    match w.newsApi(NewsApiSearchRequest(params))
    case None => Run(None, t, [NewsApi])
    case Some(articles) =>
      Adapt(t, NewsApiSearchRows(articles, params, w.clock), NewsApi)
  }

  function GuardianSearchRows(results: seq<GuardianResult>, clock: Clock): (r: seq<Option<Article>>)
    ensures |r| == |results| && forall i :: 0 <= i < |results| ==> r[i] == GuardianSearchRow(results[i], clock)
  {
    seq(|results|, i requires 0 <= i < |results| => GuardianSearchRow(results[i], clock))
  }

  /** `SearchGuardianApi` */
  function SearchGuardian(params: Params, t: Table, w: World): (r: Run<Option<seq<Article>>>)
    ensures r.calls == [Guardian]
    ensures var answer := w.guardian(GuardianSearchQuery(params));
            && (r.value.Some? <==> answer.Some? && GuardianBatchReads(answer.value, w.clock))
            && (r.value.Some? ==> && |r.value.value| == |answer.value|
                                  && (forall i :: 0 <= i < |answer.value| ==>
                                        GuardianSearchRows(answer.value, w.clock)[i] == Some(r.value.value[i]))
                                  && r.table == UpsertAll(t, r.value.value))
            && (answer.None? ==> r.table == t)
            && (answer.Some? ==> var rows := GuardianSearchRows(answer.value, w.clock);
                                 r.table == UpsertAll(t, Values(rows[..Completed(rows)])))
    ensures r.value.Some? ==> forall i :: 0 <= i < |r.value.value| ==> r.value.value[i].source == SourceName(Guardian)
  {
    match w.guardian(GuardianSearchQuery(params))
    case None => Run(None, t, [Guardian])
    case Some(results) =>
      Adapt(t, GuardianSearchRows(results, w.clock), Guardian)
  }

  function NytSearchRows(docs: seq<NytDoc>, clock: Clock): (r: seq<Option<Article>>)
    ensures |r| == |docs| && forall i :: 0 <= i < |docs| ==> r[i] == NytSearchRow(docs[i], clock)
  {
    seq(|docs|, i requires 0 <= i < |docs| => NytSearchRow(docs[i], clock))
  }

  /** `SearchNytApi` */
  function SearchNyt(params: Params, t: Table, w: World): (r: Run<Option<seq<Article>>>)
    ensures r.calls == [Nyt]
    ensures var answer := w.nytSearch(NytSearchQuery(params, w.ymd));
            && (r.value.Some? <==> answer.Some? && NytDocBatchReads(answer.value, w.clock))
            && (r.value.Some? ==> && |r.value.value| == |answer.value|
                                  && (forall i :: 0 <= i < |answer.value| ==>
                                        NytSearchRows(answer.value, w.clock)[i] == Some(r.value.value[i]))
                                  && r.table == UpsertAll(t, r.value.value))
            && (answer.None? ==> r.table == t)
            && (answer.Some? ==> var rows := NytSearchRows(answer.value, w.clock);
                                 r.table == UpsertAll(t, Values(rows[..Completed(rows)])))
    ensures r.value.Some? ==> forall i :: 0 <= i < |r.value.value| ==> r.value.value[i].source == SourceName(Nyt)
  {
    match w.nytSearch(NytSearchQuery(params, w.ymd))
    case None => Run(None, t, [Nyt])
    case Some(docs) =>
      Adapt(t, NytSearchRows(docs, w.clock), Nyt)
  }

  // ------------------------------------------------------------ allSearchApi

  /** What `allSearchApi` returns: `null`, `false`, or a collection. */
  datatype SearchAnswer = NoAnswer | Failed | Found(articles: seq<Article>)

  /** `if ($x) $result = $result->merge($x)`: a failed adapter adds nothing. */
  function Contribution(x: Option<seq<Article>>): seq<Article> {
    if x.Some? then x.value else []
  }

  function AsAnswer(x: Option<seq<Article>>): SearchAnswer {
    if x.Some? then Found(x.value) else Failed
  }

  /** The rows a search adapter writes: those before the first row that
      throws, and none when the call throws. */
  function NewsApiSearchWrites(params: Params, w: World): seq<Article> {
    match w.newsApi(NewsApiSearchRequest(params))
    case None => []
    case Some(articles) =>
      var rows := NewsApiSearchRows(articles, params, w.clock);
      Values(rows[..Completed(rows)])
  }

  function GuardianSearchWrites(params: Params, w: World): seq<Article> {
    match w.guardian(GuardianSearchQuery(params))
    case None => []
    case Some(results) =>
      var rows := GuardianSearchRows(results, w.clock);
      Values(rows[..Completed(rows)])
  }

  function NytSearchWrites(params: Params, w: World): seq<Article> {
    match w.nytSearch(NytSearchQuery(params, w.ymd))
    case None => []
    case Some(docs) =>
      var rows := NytSearchRows(docs, w.clock);
      Values(rows[..Completed(rows)])
  }

  /** Each search adapter leaves the table with its written rows upserted. */
  lemma NewsApiSearchTable(params: Params, t: Table, w: World)
    ensures SearchNewsApi(params, t, w).table == UpsertAll(t, NewsApiSearchWrites(params, w))
  {
  }

  lemma GuardianSearchTable(params: Params, t: Table, w: World)
    ensures SearchGuardian(params, t, w).table == UpsertAll(t, GuardianSearchWrites(params, w))
  {
  }

  lemma NytSearchTable(params: Params, t: Table, w: World)
    ensures SearchNyt(params, t, w).table == UpsertAll(t, NytSearchWrites(params, w))
  {
  }

  /** The three adapter answers of a search, in merge order. */
  function MergedAnswers(params: Params, t: Table, w: World): seq<Article> {
    var news := SearchNewsApi(params, t, w);
    var guardian := SearchGuardian(params, news.table, w);
    var nyt := SearchNyt(params, guardian.table, w);
    Contribution(news.value) + Contribution(guardian.value) + Contribution(nyt.value)
  }

  /** `allSearchApi` without a `source` (or with "all"): the three adapters
      run in order, and the answer is a permutation of their successful
      answers concatenated, with nothing removed (a url answered twice appears
      twice), sorted newest first, with articles published at the same
      instant kept in merge order. */
  function SearchAll(params: Params, t: Table, w: World): (r: Run<SearchAnswer>)
    ensures r.calls == [NewsApi, Guardian, Nyt] && r.value.Found?
    ensures r.value.articles == SortDesc(MergedAnswers(params, t, w))
    ensures SortedDesc(r.value.articles)
    ensures multiset(r.value.articles) == multiset(MergedAnswers(params, t, w))
    ensures forall k :: PublishedAt(r.value.articles, k) == PublishedAt(MergedAnswers(params, t, w), k)
  {
    var news := SearchNewsApi(params, t, w);
    var guardian := SearchGuardian(params, news.table, w);
    var nyt := SearchNyt(params, guardian.table, w);
    var merged := MergedAnswers(params, t, w);
    SortKeepsAllTies(merged);
    assert news.calls + guardian.calls + nyt.calls == [NewsApi, Guardian, Nyt];
    Run(Found(SortDesc(merged)), nyt.table, news.calls + guardian.calls + nyt.calls)
  }

  /** `allSearchApi` stores what it finds: whatever each adapter wrote before
      failing stays written, so the table is the three written batches
      upserted in order, still with one row per url. */
  lemma SearchAllTable(params: Params, t: Table, w: World)
    ensures var r := SearchAll(params, t, w);
            && r.table == UpsertAll(UpsertAll(UpsertAll(t, NewsApiSearchWrites(params, w)),
                                              GuardianSearchWrites(params, w)), NytSearchWrites(params, w))
            && (UniqueUrls(t) ==> UniqueUrls(r.table))
  {
    var news := SearchNewsApi(params, t, w);
    var guardian := SearchGuardian(params, news.table, w);
    NewsApiSearchTable(params, t, w);
    GuardianSearchTable(params, news.table, w);
    NytSearchTable(params, guardian.table, w);
    UpsertThreeKeepsUnique(t, NewsApiSearchWrites(params, w), GuardianSearchWrites(params, w),
                           NytSearchWrites(params, w));
  }

  /** The search adapter of one provider. */
  function SearchBy(p: Provider, params: Params, t: Table, w: World): Run<Option<seq<Article>>> {
    match p
    case NewsApi => SearchNewsApi(params, t, w)
    case Guardian => SearchGuardian(params, t, w)
    case Nyt => SearchNyt(params, t, w)
  }

  /** `allSearchApi` with a `source` naming one provider: that adapter alone.
      Its false is passed on as `Failed`, and its collection as found, unsorted,
      every article carrying that provider's source name. */
  function SearchOne(p: Provider, params: Params, t: Table, w: World): (r: Run<SearchAnswer>)
    ensures var a := SearchBy(p, params, t, w);
            && r.calls == [p] && r.table == a.table
            && (r.value.Failed? <==> a.value.None?)
            && (r.value.Found? <==> a.value.Some?)
            && (r.value.Found? ==> r.value.articles == a.value.value)
    ensures r.value.Found? ==> forall i :: 0 <= i < |r.value.articles| ==> r.value.articles[i].source == SourceName(p)
  {
    var a := SearchBy(p, params, t, w);
    Run(AsAnswer(a.value), a.table, a.calls)
  }

  /** `allSearchApi`. Without a `source` key (or with `source` "all") all
      three adapters run in order and their results are concatenated (no
      deduplication) and sorted newest first. A `source` naming a provider
      runs that adapter alone and returns its answer unsorted; any other
      present `source` (null included) returns null without calling
      anything. */
  function AllSearch(params: Params, t: Table, w: World): (r: Run<SearchAnswer>)
    ensures ("source" !in params || params["source"] == Some("all")) ==> r == SearchAll(params, t, w)
    ensures "source" in params && params["source"] == Some(NewsApiName) ==>
              r == (var a := SearchNewsApi(params, t, w); Run(AsAnswer(a.value), a.table, a.calls))
    ensures "source" in params && params["source"] == Some(GuardianName) ==>
              r == (var a := SearchGuardian(params, t, w); Run(AsAnswer(a.value), a.table, a.calls))
    ensures "source" in params && params["source"] == Some(NytName) ==>
              r == (var a := SearchNyt(params, t, w); Run(AsAnswer(a.value), a.table, a.calls))
    ensures "source" in params && params["source"] !in {Some("all"), Some(NewsApiName), Some(GuardianName), Some(NytName)} ==>
              r == Run(NoAnswer, t, [])
  {
    var source := if "source" in params then params["source"] else Some("all");
    if source == Some("all") then SearchAll(params, t, w)
    else if source == Some(NewsApiName) then SearchOne(NewsApi, params, t, w)
    else if source == Some(GuardianName) then SearchOne(Guardian, params, t, w)
    else if source == Some(NytName) then SearchOne(Nyt, params, t, w)
    else Run(NoAnswer, t, [])
  }
}
