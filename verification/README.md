# News aggregator core, modelled in Dafny

This project models the core of a Laravel news aggregator. The service
`NewsAggregatorService` pulls articles from three providers: NewsAPI, The
Guardian and the New York Times. It normalises each provider's record into one
`Article` row and upserts it into a url-keyed table. It also runs live searches
that merge the providers' answers newest first. `ArticleController::index`
validates a search request and filters the stored articles with a where-chain.
When nothing stored matches, it falls back to the live search, filters the
result by author without regard to case, and paginates it in memory.

Modules, one per file:

- `Wrappers` (wrappers.dfy): `Option` for values read through `??`, and
  `Field` for keys read without it, where a missing key throws.
- `Text` (text.dfy): PHP truthiness, `filled`, `??` lookups, `strtolower`,
  substring search, and `explode` with its inverse.
- `Json` (json.dfy): the JSON text stored in the `tags` column, with a proved
  round trip.
- `ArticleModel` (article.dfy): the `Article` row, its mass-assignable
  attributes and the `tags` array cast.
- `ArticleStore` (store.dfy): the table as a sequence in primary-key order.
  Urls are unique, and `updateOrCreate` is keyed by url. It also models a
  batch whose loop stops at the first exception.
- `Collections` (collections.dfy): `Collection::filter`.
- `Ordering` (ordering.dfy): the stable `sortByDesc('published_at')`.
- `Paging` (paging.dfy): `array_slice` and `LengthAwarePaginator`.
- `Providers` (providers.dfy): `formatPublishedDate`, the six field mappers and
  the three providers' request mappings.
- `Aggregator` (aggregator.dfy): the six adapters, `fetchAllNews` and
  `allSearchApi`.
- `QueryFilter` (query.dfy): the where-chain `index` builds and what SQL makes
  of it.
- `Controller` (controller.dfy): validation, the store/live switch and
  `paginateCollection`.

The outside world is a set of parameters. A provider's answer is a function of
the request the adapter sends. `None` stands for a thrown exception, or for a
failed HTTP status from the NYT. Other parameters stand for library behaviour:
the clock, Carbon's parser, `date('Ymd', strtotime(..))`, SQL `LIKE`,
`startOfDay`/`endOfDay`, `Str::title` and the `date` validation rule.

Some behaviour follows the code where its documented intent differs:

- The tag clauses are appended with `orWhereJsonContains` to a flat chain. SQL
  binds AND tighter than OR, so the tags are not one OR group inside the AND
  (`QueryFilter.MatchesWithTags`).
- `paginateCollection` slices with the page number as given. Page 0 takes the
  last `per_page` items (negative `array_slice` offset), while the paginator
  reports page 1 (`Paging.PageZeroTakesTheTail`).
- A truthy publication date that Carbon cannot parse throws inside the loop.
  It does not fall back to "now": the rows written before it stay, and the
  adapter answers `false` (`ArticleStore.Ingest`, `Aggregator.FetchNewsApi`).
- Nothing deduplicates the merged search results. An url that two providers
  answer appears twice (`Aggregator.SearchAll`).
- A `source` that is present but blank or null is not a filter, but
  `allSearchApi` then answers null. The controller then fails with a server
  error, as it does for a `false` answer or a `per_page` of 0.
- Rows with equal `published_at` come out in primary-key order in the store
  page. They keep their merge order in the live results. Because the model
  reads one clock per run (see "## Left out"), two undated rows of one live
  search always tie there.
- A provider field read without `??` (NewsAPI's `title`, `description` and
  `publishedAt`, the Guardian's `webTitle` and `webPublicationDate`, the
  most-viewed `title` and `abstract`, every url) throws when the key is
  missing: PHP's warning becomes an `ErrorException`. That row is not
  written, the rows before it stay, and the adapter answers `false`
  (`Providers.NewsApiReads` and its siblings).

## Model

| member | source | states |
|---|---|---|
| Text.Lower | app/Http/Controllers/ArticleController.php:95 | `strtolower` keeps the length and folds A–Z position by position; no upper-case ASCII letter remains |
| Text.LowerIdempotent | app/Http/Controllers/ArticleController.php:95-96 | lower-casing the already lower-cased author input changes nothing, so `stripos` against it is case-blind on both sides |
| Text.ContainsAt | app/Http/Controllers/ArticleController.php:96 | the recursive substring search holds exactly when the needle occurs at some position of the haystack |
| Text.Split | app/Http/Controllers/ArticleController.php:74 | `explode(',', ..)` yields at least one piece and no piece contains the separator |
| Text.JoinSplit | app/Http/Controllers/ArticleController.php:74 | joining the pieces of `explode` with the separator gives back the input |
| Text.SplitJoin | app/Http/Controllers/ArticleController.php:74 | exploding pieces joined by a separator they lack gives back the pieces |
| Json.ParseEncoded | app/Models/Article.php:15-17 | the parser reads back any encoded value followed by arbitrary text, leaving that text |
| Json.RoundTrip | app/Models/Article.php:15-17 | decoding the encoding of any tags value gives the value back, as the `array` cast relies on |
| Json.EncodeInjective | app/Models/Article.php:15-17 | distinct tag values are stored as distinct text |
| ArticleModel.Fill | app/Models/Article.php:12-17 | a filled row has the lookup url and its tags read back as exactly the assigned value |
| ArticleModel.FillKeepsExactlyFillable | app/Models/Article.php:12-14 | two attribute sets give the same row iff they agree on every fillable attribute; `language` is not fillable and is dropped |
| ArticleStore.Find | app/Services/NewsAggregatorService.php:37-38 | the lookup by url returns a row holding that url, or reports that no row holds it |
| ArticleStore.Upsert | app/Services/NewsAggregatorService.php:37-48 | `updateOrCreate` keeps urls unique, maps the url to the new row and leaves every other url's row alone, and grows the table only for a new url |
| ArticleStore.UpsertAllMap | app/Services/NewsAggregatorService.php:36-49 | upserting a batch keeps urls unique, and the table read by url is the old table overridden by the batch (last write per url wins) |
| ArticleStore.UpsertBatch | app/Services/NewsAggregatorService.php:36-49 | after a batch the urls are the old ones plus the batch's, each batch url holds its last row, and every other url is unchanged |
| ArticleStore.OverwriteSameUrl | app/Services/NewsAggregatorService.php:37-48 | a second upsert to the same url replaces the first without adding a row |
| ArticleStore.Ingest | app/Services/NewsAggregatorService.php:84-101 | the rows before the first throwing write persist; a collection is returned iff every write succeeded, and it then holds the written rows in order |
| ArticleStore.IngestAnswerIsUpserted | app/Services/NewsAggregatorService.php:84-101 | when every write succeeds, the table afterwards is the old one with the returned rows upserted in order |
| Collections.Filter | app/Http/Controllers/ArticleController.php:96 | the filter never grows the list and keeps only accepted elements |
| Collections.FilterCount | app/Http/Controllers/ArticleController.php:96 | an element survives as often as it occurs if accepted, else never; membership in the result iff in the input and accepted |
| Collections.FilterConcat | app/Http/Controllers/ArticleController.php:96 | filtering distributes over concatenation, so relative order is kept |
| Collections.FilterKeepsAll | app/Http/Controllers/ArticleController.php:96 | the filter leaves a list unchanged iff it accepts every element |
| Ordering.SortDesc | app/Services/NewsAggregatorService.php:347 | the sort yields a permutation of its input ordered newest first |
| Ordering.SortKeepsTies | app/Services/NewsAggregatorService.php:347 | articles with equal `published_at` keep their input order (stable sort) |
| Ordering.SortKeepsAllTies | app/Services/NewsAggregatorService.php:347 | for every timestamp at once, the sorted articles published then appear in input order |
| Ordering.SortedPrefixNewest | app/Services/NewsAggregatorService.php:347 | the first k of a list sorted newest first are among its items, and nothing left after them is newer than the k-th |
| Paging.ArraySlice | app/Http/Controllers/ArticleController.php:112 | `array_slice` with non-negative offset and length is the clamped window; a negative offset counts from the end; every item comes from the input |
| Paging.LastPage | app/Http/Controllers/ArticleController.php:114-120 | the last page is at least 1 and is the ceiling of total over page size |
| Paging.Paginate | app/Http/Controllers/ArticleController.php:107-121 | a zero page size fails; otherwise the total is the item count, the last page is `LastPage`, the items are `array_slice` from `(page-1)*perPage` (the window, empty past the end, for page ≥ 1; counted from the end for page < 1), and the reported page is clamped to 1 |
| Paging.PagesUpToPrefix | app/Http/Controllers/ArticleController.php:107-121 | pages 1 to k concatenated are the first k·perPage items |
| Paging.Reconstruct | app/Http/Controllers/ArticleController.php:107-121 | pages 1 to the last page concatenated are exactly the items |
| Paging.PageZeroTakesTheTail | app/Http/Controllers/ArticleController.php:109-112 | page 0 reports page 1 but holds the last perPage items |
| Providers.FormatPublishedDate | app/Services/NewsAggregatorService.php:371-374 | a falsy date becomes now; a truthy one is Carbon's parse, which may throw |
| Providers.NewsApiFetchRow | app/Services/NewsAggregatorService.php:37-48 | the headline row is written iff its url, title, description and date keys are present, the url is not null and the date formats; it is keyed by url, keeps title and description, dates the row by the formatted date, author defaults to "Unknown", source "News API", category "General", tags read back as `[null]` |
| Providers.GuardianFetchRow | app/Services/NewsAggregatorService.php:244-256 | the fetched Guardian row is written iff url, title and date keys are present and the date formats; it keeps url and title, dates by the formatted date, has no description, section or "General" as category, and tags that read back as JSON text of `[pillar or "News"]` |
| Providers.NytFetchRow | app/Services/NewsAggregatorService.php:284-299 | the most-viewed row is written iff url, title and abstract keys are present and the date formats; it keeps url, title and abstract, dates by the formatted date, section or "General", and tags that read back as JSON text of `des_facet` or `["News"]` |
| Providers.NewsApiSearchRow | app/Services/NewsAggregatorService.php:85-96 | the NewsAPI search row is written iff its plain-read keys are present and the date formats; it keeps url, title and description, dates by the formatted date, takes the request's category (else "General") and the search text as its one tag |
| Providers.GuardianSearchRow | app/Services/NewsAggregatorService.php:137-148 | the Guardian search row is written iff its plain-read keys are present and the date formats; it keeps url and title, dates by the formatted date, defaults its description to "No description available", and its tags read back as the list `[pillar or "News"]` |
| Providers.KeywordValues | app/Services/NewsAggregatorService.php:206 | `array_column` keeps exactly the keywords' present values, no more entries than keywords |
| Providers.KeywordValuesConcat | app/Services/NewsAggregatorService.php:206 | `array_column` keeps input order: it distributes over concatenation |
| Providers.NytSearchRow | app/Services/NewsAggregatorService.php:198-209 | the NYT search row is written iff `web_url` is present and the date formats; it keeps the url, dates by the formatted date, defaults title, author, description and category, and its tags read back as the list of keyword values |
| Providers.GuardianFetchAndSearchDiffer | app/Services/NewsAggregatorService.php:244-256 | fetch and search map one Guardian result to rows that agree on identity and date but differ in description and in tag shape |
| Providers.NewsApiSearchRequest | app/Services/NewsAggregatorService.php:69-79 | the everything endpoint is used iff the search text is truthy, else US top headlines in the category; 30 per page, page 1 |
| Providers.GuardianSearchQuery | app/Services/NewsAggregatorService.php:118-131 | the query is the search text when truthy, else the category; from/to default to "-30 days"/"now"; the category is the section |
| Providers.NytSearchQuery | app/Services/NewsAggregatorService.php:168-185 | `q`, `page` 0 and `sort` are always sent; `begin_date`, `end_date` and `fq` exactly when from, to and category are set, in their formats |
| Aggregator.FetchNewsApi | app/Services/NewsAggregatorService.php:22-57 | the headline fetch calls NewsAPI once and succeeds iff the call answers and every row reads; a throwing call leaves the table alone, and after an answer the table is the old one with the rows before the first throwing row upserted |
| Aggregator.FetchGuardian | app/Services/NewsAggregatorService.php:226-264 | the Guardian fetch calls once and succeeds iff the call answers and every row reads; a throwing call leaves the table alone, and after an answer the table has the rows before the first throwing row upserted |
| Aggregator.FetchNyt | app/Services/NewsAggregatorService.php:271-307 | the NYT fetch succeeds iff the response is not failed and every row reads; a failed response leaves the table alone, and otherwise the table has the rows before the first throwing row upserted |
| Aggregator.FetchAll | app/Services/NewsAggregatorService.php:315-322 | all three adapters run, in order, whatever fails; the result is true iff all three succeed; the table is the old one with each adapter's written rows (those before its first throw, none when its call fails) upserted in order, and urls stay unique |
| Aggregator.FetchAllSucceeds | app/Services/NewsAggregatorService.php:315-322 | a successful refresh is the three mapped batches upserted in order, and urls stay unique |
| Aggregator.Adapt | app/Services/NewsAggregatorService.php:84-105 | a search loop answers iff every row reads, then with the rows in order, all from its provider, upserted into the table; otherwise the rows before the first throwing one stay |
| Aggregator.SearchNewsApi | app/Services/NewsAggregatorService.php:65-106 | the search answers iff the call answers and every article reads; entry i is the row mapped from article i, the table is the old one with the answer upserted, and a failure keeps the rows before the throwing one |
| Aggregator.SearchGuardian | app/Services/NewsAggregatorService.php:114-157 | the search answers iff the call answers and every result reads; entry i is the row mapped from result i, the table is the old one with the answer upserted, and a failure keeps the rows before the throwing one |
| Aggregator.SearchNyt | app/Services/NewsAggregatorService.php:165-218 | the search answers iff the response is not failed and every doc reads; entry i is the row mapped from doc i, the table is the old one with the answer upserted, and a failure keeps the rows before the throwing one |
| Aggregator.SearchAll | app/Services/NewsAggregatorService.php:332-347 | all three adapters run in order; the answer is a permutation of the successful answers concatenated, none removed, sorted newest first, ties kept in merge order |
| Aggregator.SearchAllTable | app/Services/NewsAggregatorService.php:332-347 | the search stores what it finds: the table is the old one with each adapter's written rows (those before its first throw, none when its call fails) upserted in order, and urls stay unique |
| Aggregator.SearchOne | app/Services/NewsAggregatorService.php:350-360 | a named source calls only its adapter, keeps that adapter's table, answers `false` iff the adapter fails, and otherwise exactly the adapter's articles, all from that source |
| Aggregator.AllSearch | app/Services/NewsAggregatorService.php:324-363 | no source or "all" searches all three; a provider name delegates to that adapter; any other present source answers null and calls nothing |
| QueryFilter.ScanOrsThenAnds | app/Http/Controllers/ArticleController.php:72-85 | OR clauses followed by AND clauses: each OR clause but the last stands alone, the last binds to the ANDs after it |
| QueryFilter.MatchesAnds | app/Http/Controllers/ArticleController.php:60-71 | a chain of ANDs matches iff every clause holds |
| QueryFilter.MatchesAndsOrsAnds | app/Http/Controllers/ArticleController.php:60-85 | ANDs, then ORs, then ANDs match iff the first run holds, or an early OR holds, or the last OR and the final run hold |
| QueryFilter.FilterClauses | app/Http/Controllers/ArticleController.php:60-71 | the title, author, category and source clauses are all joined by AND |
| QueryFilter.TagClauses | app/Http/Controllers/ArticleController.php:72-77 | one OR clause per comma-separated piece when `tags` is filled, none otherwise |
| QueryFilter.DateClauses | app/Http/Controllers/ArticleController.php:78-85 | the date bounds are joined by AND |
| QueryFilter.FilterClausesHold | app/Http/Controllers/ArticleController.php:60-71 | the AND clauses hold iff every filled filter holds (NULL title never matches LIKE) |
| QueryFilter.DateClausesHold | app/Http/Controllers/ArticleController.php:78-85 | the date clauses hold iff the date is at least the start of `from` and at most the end of `to` |
| QueryFilter.TagClauseHolds | app/Http/Controllers/ArticleController.php:72-77 | the OR clause for piece i holds iff the row's tags contain piece i title-cased |
| QueryFilter.TagClausesHold | app/Http/Controllers/ArticleController.php:72-77 | there is one tag clause per piece; the clauses before the last hold iff some earlier piece is among the tags, the last iff the last piece is |
| QueryFilter.IndexChainWithTags | app/Http/Controllers/ArticleController.php:60-85 | with tags the chain matches iff the AND filters all hold, or an earlier tag clause holds, or the last tag clause and the date clauses hold |
| QueryFilter.MatchesWithoutTags | app/Http/Controllers/ArticleController.php:60-85 | without tags a row matches iff every filled filter and both date bounds hold |
| QueryFilter.MatchesWithTags | app/Http/Controllers/ArticleController.php:60-85 | with tags a row matches iff the four filters hold, or a tag but the last matches alone, or the last tag and the date bounds hold |
| Controller.Only | app/Http/Controllers/ArticleController.php:40-51 | `only` keeps exactly the validated keys the request has, with their values |
| Controller.ValidationRules | app/Http/Controllers/ArticleController.php:27-55 | validating the request's validated keys rejects it iff `search` is missing or blank, a filled `source` is not one of the three names, or a filled `from` or `to` is not a date; blank nullable values are skipped |
| Controller.ValidationExample | app/Http/Controllers/ArticleController.php:27-55 | a search with a blank `source` passes, one with source "BBC" fails, and one without `search` fails |
| Controller.Matching | app/Http/Controllers/ArticleController.php:57-88 | the selected rows are exactly the stored rows that satisfy the where-chain, each as often as it is stored |
| Controller.StorePage | app/Http/Controllers/ArticleController.php:103 | the store's page is the requested one when at least 1, and 1 when absent or below 1 |
| Controller.AuthorFilter | app/Http/Controllers/ArticleController.php:94-97 | every kept article's author contains the lower-cased input, ignoring case |
| Controller.LiveArticlesKeep | app/Http/Controllers/ArticleController.php:93-97 | without a filled `author` the live results are the merged ones; with it, an article is kept iff its author contains the input ignoring case, as often as it was merged |
| Controller.StorePageRows | app/Http/Controllers/ArticleController.php:88-103 | page k of the store answer is the window from (k-1)·10 of the matches sorted newest first (empty past the end), totals the match count, and holds stored rows satisfying the chain |
| Controller.SortedPage | app/Http/Controllers/ArticleController.php:107-121 | a page of a list sorted newest first is sorted newest first and holds at most perPage items |
| Controller.StoreOutcome | app/Http/Controllers/ArticleController.php:103 | the store answer is the paginator's page of the matches sorted newest first, ten per page at the clamped page, calls no provider and changes no row |
| Controller.LiveOutcome | app/Http/Controllers/ArticleController.php:89-121 | a null or false answer or a zero per_page is a server error; otherwise the answer is the paginator's page, at the requested page, of the author-filtered answer with per_page (default 10), and the reported page is clamped to 1 |
| Controller.Index | app/Http/Controllers/ArticleController.php:24-104 | 422 iff validation fails, touching nothing; stored rows answer iff some row matches; otherwise the live search answers |
| Controller.FallbackSearchesAll | app/Http/Controllers/ArticleController.php:88-99 | with no stored match, source or author, all three providers are called and the page is the paginator's page of the merged answers sorted newest first |
| Controller.FirstPageNewest | app/Http/Controllers/ArticleController.php:107-121 | page 1 of a newest-first sort holds perPage items of the input and nothing left out is newer than its last item |
| Controller.FallbackScenario | app/Http/Controllers/ArticleController.php:88-99 | empty store, answers of 3, failure and 2: page 1 of size 2 holds two merged articles, newest first, with no left-out article newer than them, of a total of 5 |
| Controller.AuthorFilterIgnoresCase | app/Http/Controllers/ArticleController.php:94-97 | an article is kept iff its author contains the input ignoring case, and the input's own case does not matter |
| Controller.AuthorFilterExample | app/Http/Controllers/ArticleController.php:94-97 | authors "Jane Doe", "JANE SMITH", "Bob" filtered by "jane" keep the first two |

## Left out

- Network calls, the SDK clients, API keys and logging. Each provider's answer
  is a parameter, and an exception and a failed HTTP status are both `None`.
- An invalid `from`/`to` given to `new \DateTimeImmutable` in the Guardian
  search throws. The model leaves this to the Guardian answer function, which
  may answer `None` for such a query.
- Every `now()` in one run is taken to be the same instant, `Clock.now`. PHP
  reads the clock afresh for each undated row (`formatPublishedDate` and the
  `?? now()` defaults of the NYT mappers), at one-second resolution. Two
  undated rows written a second apart get different dates there, and the live
  sort puts the later one first, where the model keeps merge order.
- Carbon and `date()` formatting. Dates are integer timestamps. The parser,
  `date('Ymd', strtotime(..))`, `startOfDay`, `endOfDay` and the `date` rule
  are parameters. `Carbon::parse(now())` is taken to be now.
- SQL `LIKE` is a parameter, because wildcards in the input and the collation
  are the database's business. Category and source compare exactly, although
  MySQL's default collation ignores case.
- Rows with the same `published_at` are ordered by primary key in the store
  query. SQL leaves this order open.
- JSON: the stand-in escapes `"`, `\` and `/` but not control characters or
  non-ASCII (`\u` escapes). Numbers and objects are not modelled, because the
  tags never hold them.
- A provider url that is present but null is taken to make the write throw,
  on the assumption that the `url` column is NOT NULL; the migration is not
  part of this model. An NYT keyword whose `value` is JSON null or not a
  string is not modelled: keyword values are strings.
- Database failures are not modelled: `ArticleStore.Upsert` cannot fail. A
  throwing `updateOrCreate` would be caught by the adapter, which would answer
  `false` with the earlier rows kept, as for a throwing row; a throwing
  `count()` in `index` would be a server error.
- The request's `page` and `per_page` are integers. PHP's coercion of string
  values is not modelled.
- `Str::title` is a parameter. Its multibyte rules are outside the model.
- The paginator's `path`/`query` options and the JSON response shape are not
  modelled. Neither are `id`, `created_at`/`updated_at`, or concurrent
  `updateOrCreate` races.
- The request middleware that trims strings and turns empty strings into null
  is not modelled. The input is taken as the controller receives it.
- `app/Jobs/FetchNewsJob.php` and `app/Console/Commands/FetchNewsArticles.php`
  only schedule `fetchAllNews`, so they are not part of this model.
- Paging.ArraySlice: with a negative length, the contract only bounds the
  slice's length. The exact window is in the definition, and `index` never
  passes a negative length unless `per_page` is negative.
