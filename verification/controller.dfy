/** `ArticleController::index` and `paginateCollection`: validate the request,
    query the stored articles, and fall back to a live search of the providers
    when nothing stored matches. */
module Controller {
  import opened Wrappers
  import opened Text
  import opened ArticleModel
  import opened ArticleStore
  import opened Collections
  import opened Ordering
  import opened Paging
  import opened Providers
  import opened Aggregator
  import opened QueryFilter

  /** The request keys `index` validates and hands to the search. */
  const ValidatedKeys: set<string> := {"search", "category", "source", "tags", "from", "author", "to"}

  /** The values the `source` rule accepts. */
  const SourceNames: seq<string> := [NewsApiName, GuardianName, NytName]

  /** The store's page size; the request's `per_page` does not affect it. */
  const StorePerPage := 10

  /** The live search's page size when the request gives no `per_page`. */
  const DefaultPerPage := 10

  /** A request: its filter input, and the `page` and `per_page` values when
      present. */
  datatype Request = Request(input: Params, page: Option<int>, perPage: Option<int>)

  /** `$request->only($params)`: the validated keys the request has, null
      values included. */
  function Only(input: Params): (r: Params)
    ensures r.Keys == input.Keys * ValidatedKeys
    ensures forall k :: k in r ==> r[k] == input[k]
  {
    map k | k in input && k in ValidatedKeys :: input[k]
  }

  /** The validation rules. `search` is required (present and not blank); the
      nullable rules skip null and blank values; a given `source` must be one
      of the three provider names exactly; `from` and `to` must be dates, as
      `isDate` decides. */
  predicate Valid(data: Params, isDate: string -> bool) {
    && Filled(data, "search")
    && (Filled(data, "source") ==> Lookup(data, "source").value in SourceNames)
    && (Filled(data, "from") ==> isDate(Lookup(data, "from").value))
    && (Filled(data, "to") ==> isDate(Lookup(data, "to").value))
  }

  /** Validating `$request->only($params)` applies the rules to the request
      itself: it is rejected exactly when `search` is missing or blank, a
      filled `source` is not one of the three names, or a filled `from` or
      `to` is not a date. A blank `source`, `from` or `to` is skipped. */
  lemma ValidationRules(input: Params, isDate: string -> bool)
    ensures !Valid(Only(input), isDate) <==>
              || !Filled(input, "search")
              || (Filled(input, "source") && Lookup(input, "source").value !in SourceNames)
              || (Filled(input, "from") && !isDate(Lookup(input, "from").value))
              || (Filled(input, "to") && !isDate(Lookup(input, "to").value))
  {
    assert Lookup(Only(input), "search") == Lookup(input, "search");
    assert Lookup(Only(input), "source") == Lookup(input, "source");
    assert Lookup(Only(input), "from") == Lookup(input, "from");
    assert Lookup(Only(input), "to") == Lookup(input, "to");
  }

  /** A search with a blank `source` passes; one naming another source, or
      with no search text, is rejected. */
  lemma ValidationExample(isDate: string -> bool)
    ensures Valid(Only(map["search" := Some("laravel"), "source" := Some(" ")]), isDate)
    ensures !Valid(Only(map["search" := Some("laravel"), "source" := Some("BBC")]), isDate)
    ensures !Valid(Only(map["source" := Some(NytName)]), isDate)
  {
    var blank := map["search" := Some("laravel"), "source" := Some(" ")];
    var other := map["search" := Some("laravel"), "source" := Some("BBC")];
    ValidationRules(blank, isDate);
    ValidationRules(other, isDate);
    ValidationRules(map["source" := Some(NytName)], isDate);
    assert Blank(" ");
    assert !Blank("laravel") by { assert !Trimmable("laravel"[0]); }
    assert !Blank("BBC") by { assert !Trimmable("BBC"[0]); }
    assert "BBC" != NewsApiName && "BBC" != GuardianName && "BBC" != NytName;
  }

  /** The stored rows the where-chain selects, in table order. */
  function Matching(t: Table, input: Params, lib: Library): (r: seq<Article>)
    ensures forall i :: 0 <= i < |r| ==> Matches(IndexChain(input, lib), r[i], lib)
    ensures forall a :: a in r <==> a in t && Matches(IndexChain(input, lib), a, lib)
    ensures forall a :: multiset(r)[a] == if Matches(IndexChain(input, lib), a, lib) then multiset(t)[a] else 0
  {
    var keep := (a: Article) => Matches(IndexChain(input, lib), a, lib);
    assert forall a :: (a in Filter(t, keep) <==> a in t && keep(a))
                       && multiset(Filter(t, keep))[a] == (if keep(a) then multiset(t)[a] else 0) by {
      forall a ensures (a in Filter(t, keep) <==> a in t && keep(a))
                       && multiset(Filter(t, keep))[a] == (if keep(a) then multiset(t)[a] else 0) {
        FilterCount(t, keep, a);
      }
    }
    Filter(t, keep)
  }

  /** `Paginator::resolveCurrentPage`: the requested page when it is at least
      1, page 1 otherwise. */
  function StorePage(page: Option<int>): (r: int)
    ensures r >= 1
    ensures page.Some? && page.value >= 1 ==> r == page.value
    ensures page.None? ==> r == 1
    ensures page.Some? && page.value < 1 ==> r == 1
  {
    if page.Some? && page.value >= 1 then page.value else 1
  }

  /** `stripos($author, $needle) !== false`. */
  predicate AuthorMatches(a: Article, needle: string) {
    ContainsIgnoringCase(a.author, needle)
  }

  /** The live results' author filter: `stripos` against the lower-cased
      `author` input. */
  function AuthorFilter(c: seq<Article>, author: string): (r: seq<Article>)
    ensures forall i :: 0 <= i < |r| ==> AuthorMatches(r[i], Lower(author))
  {
    Filter(c, (a: Article) => AuthorMatches(a, Lower(author)))
  }

  /** The merged live articles after the optional author filter. */
  function LiveArticles(found: seq<Article>, input: Params): seq<Article> {
    if Filled(input, "author") then AuthorFilter(found, Lookup(input, "author").value) else found
  }

  /** The live results keep every merged article when no author is filled;
      otherwise exactly those whose author contains the input, ignoring case,
      each as often as it was merged. */
  lemma LiveArticlesKeep(found: seq<Article>, input: Params, a: Article)
    ensures !Filled(input, "author") ==> LiveArticles(found, input) == found
    ensures a in LiveArticles(found, input) <==>
              a in found && (Filled(input, "author") ==> ContainsIgnoringCase(a.author, Lookup(input, "author").value))
    ensures multiset(LiveArticles(found, input))[a] ==
              if !Filled(input, "author") || ContainsIgnoringCase(a.author, Lookup(input, "author").value)
              then multiset(found)[a] else 0
  {
    if Filled(input, "author") {
      var author := Lookup(input, "author").value;
      AuthorFilterIgnoresCase(found, author, a);
      LowerIdempotent(author);
      FilterCount(found, (x: Article) => AuthorMatches(x, Lower(author)), a);
    }
  }

  datatype Response =
    | ValidationFailed                    // 422
    | StoreResults(page: Page<Article>)   // the stored rows, ten to a page
    | LiveResults(page: Page<Article>)    // the live search, paginated in memory
    | ServerError                         // a null or false search answer, or per_page 0

  /** The response, the table after the request, and the adapters called. */
  datatype Outcome = Outcome(response: Response, table: Table, calls: seq<Provider>)

  /** The items of a page over a list sorted newest first are in that list and
      sorted newest first too. */
  lemma SortedPage(s: seq<Article>, page: int, perPage: int)
    requires SortedDesc(s) && page >= 1 && perPage >= 1
    ensures SortedDesc(Paginate(s, page, perPage).value.items)
    ensures |Paginate(s, page, perPage).value.items| <= perPage
  {
    var lo := (page - 1) * perPage;
    PageItems(s, page, perPage, lo);
  }

  /** What a store page holds: the requested window of the matching rows
      sorted newest first, ten to a page, each a stored row satisfying the
      where-chain. */
  lemma StorePageRows(t: Table, input: Params, lib: Library, page: int)
    requires page >= 1
    ensures var sorted := SortDesc(Matching(t, input, lib));
            var p := Paginate(sorted, page, StorePerPage).value;
            var lo := (page - 1) * StorePerPage;
            && p.total == |Matching(t, input, lib)|
            && (lo <= |sorted| ==> p.items == sorted[lo..Min(lo + StorePerPage, |sorted|)])
            && (lo > |sorted| ==> p.items == [])
            && SortedDesc(p.items)
            && forall i :: 0 <= i < |p.items| ==> p.items[i] in t && Matches(IndexChain(input, lib), p.items[i], lib)
  {
    var m := Matching(t, input, lib);
    var sorted := SortDesc(m);
    SortedPage(sorted, page, StorePerPage);
    PageItems(sorted, page, StorePerPage, (page - 1) * StorePerPage);
    var p := Paginate(sorted, page, StorePerPage).value;
    forall i | 0 <= i < |p.items|
      ensures p.items[i] in t && Matches(IndexChain(input, lib), p.items[i], lib)
    {
      assert p.items[i] in multiset(sorted);
    }
  }

  /** The store branch: the matching rows, newest first, ten to a page; a
      page below 1 is page 1. */
  function StoreOutcome(req: Request, t: Table, lib: Library): (r: Outcome)
    requires |Matching(t, req.input, lib)| > 0
    ensures r.response.StoreResults? && r.table == t && r.calls == []
    ensures var p := r.response.page;
            var sorted := SortDesc(Matching(t, req.input, lib));
            && p == Paginate(sorted, StorePage(req.page), StorePerPage).value
            && p.perPage == StorePerPage && p.total == |sorted|
            && p.currentPage == StorePage(req.page)
            && SortedDesc(p.items)
            && forall i :: 0 <= i < |p.items| ==> p.items[i] in t && Matches(IndexChain(req.input, lib), p.items[i], lib)
  {
    StorePageRows(t, req.input, lib, StorePage(req.page));
    Outcome(StoreResults(Paginate(SortDesc(Matching(t, req.input, lib)), StorePage(req.page), StorePerPage).value), t, [])
  }

  /** The live branch, given what `allSearchApi` did: a null or false answer,
      or a zero `per_page`, is a server error; otherwise the answer, filtered
      by author when one is given, is paginated with the request's `page` and
      `per_page`. */
  function LiveOutcome(req: Request, s: Run<SearchAnswer>): (r: Outcome)
    ensures r.table == s.table && r.calls == s.calls
    ensures r.response.LiveResults? || r.response.ServerError?
    ensures r.response.ServerError? <==> !s.value.Found? || req.perPage.GetOr(DefaultPerPage) == 0
    ensures r.response.LiveResults? ==>
              var p := r.response.page;
              var live := LiveArticles(s.value.articles, req.input);
              && p == Paginate(live, req.page.GetOr(1), req.perPage.GetOr(DefaultPerPage)).value
              && p.currentPage == (if req.page.GetOr(1) >= 1 then req.page.GetOr(1) else 1)
              && p.total == |live| && p.perPage == req.perPage.GetOr(DefaultPerPage)
              && (forall i :: 0 <= i < |p.items| ==> p.items[i] in live)
              && (req.page.GetOr(1) >= 1 && p.perPage >= 1 ==>
                    |p.items| == Max(0, Min(p.perPage, p.total - (req.page.GetOr(1) - 1) * p.perPage)))
  {
    if !s.value.Found? then Outcome(ServerError, s.table, s.calls)
    else
      var live := LiveArticles(s.value.articles, req.input);
      var page := Paginate(live, req.page.GetOr(1), req.perPage.GetOr(DefaultPerPage));
      if page.None? then Outcome(ServerError, s.table, s.calls)
      else Outcome(LiveResults(page.value), s.table, s.calls)
  }

  /** `index`. A failed validation answers 422 and touches nothing. When some
      stored row matches, the stored rows answer (see `StoreOutcome`); when
      none does, the validated input goes to `allSearchApi`, which stores
      what it finds, and its answer is paginated (see `LiveOutcome`). */
  function Index(req: Request, t: Table, w: World, lib: Library, isDate: string -> bool): (r: Outcome)
    ensures r.response.ValidationFailed? <==> !Valid(Only(req.input), isDate)
    ensures r.response.ValidationFailed? ==> r.table == t && r.calls == []
    ensures r.response.StoreResults? <==> Valid(Only(req.input), isDate) && |Matching(t, req.input, lib)| > 0
    ensures r.response.StoreResults? ==> r == StoreOutcome(req, t, lib)
    ensures Valid(Only(req.input), isDate) && |Matching(t, req.input, lib)| == 0 ==>
              r == LiveOutcome(req, AllSearch(Only(req.input), t, w))
  {
    var data := Only(req.input);
    if !Valid(data, isDate) then Outcome(ValidationFailed, t, [])
    else if |Matching(t, req.input, lib)| > 0 then StoreOutcome(req, t, lib)
    else LiveOutcome(req, AllSearch(data, t, w))
  }

  /** A valid request without `source`, `author` or stored matches searches
      all three providers in order; with a positive page and page size it
      answers that page of the merged answers sorted newest first, with the
      merged articles' count as its total. */
  lemma FallbackSearchesAll(req: Request, t: Table, w: World, lib: Library, isDate: string -> bool)
    requires Valid(Only(req.input), isDate) && |Matching(t, req.input, lib)| == 0
    requires "source" !in req.input && !Filled(req.input, "author")
    requires req.page.GetOr(1) >= 1 && req.perPage.GetOr(DefaultPerPage) >= 1
    ensures var r := Index(req, t, w, lib, isDate);
            var merged := MergedAnswers(Only(req.input), t, w);
            && r.calls == [NewsApi, Guardian, Nyt]
            && r.response.LiveResults?
            && r.response.page.total == |merged|
            && r.response.page == Paginate(SortDesc(merged), req.page.GetOr(1), req.perPage.GetOr(DefaultPerPage)).value
            && SortedDesc(r.response.page.items)
            && forall i :: 0 <= i < |r.response.page.items| ==> r.response.page.items[i] in merged
  {
    var data := Only(req.input);
    var s := AllSearch(data, t, w);
    SortedPage(s.value.articles, req.page.GetOr(1), req.perPage.GetOr(DefaultPerPage));
    var items := Index(req, t, w, lib, isDate).response.page.items;
    forall i | 0 <= i < |items| ensures items[i] in MergedAnswers(data, t, w) {
      assert items[i] in multiset(s.value.articles);
    }
  }

  /** Page 1 of a list sorted newest first holds the list's newest articles. */
  lemma FirstPageNewest(s: seq<Article>, perPage: nat)
    requires 1 <= perPage <= |s|
    ensures var items := Paginate(SortDesc(s), 1, perPage).value.items;
            && |items| == perPage
            && multiset(items) <= multiset(s)
            && forall x :: x in multiset(s) - multiset(items) ==> x.publishedAt <= items[perPage - 1].publishedAt
  {
    var sorted := SortDesc(s);
    PageItems(sorted, 1, perPage, 0);
    SortedPrefixNewest(sorted, perPage);
  }

  /** The store is empty, the search names no source, NewsAPI answers three
      articles, the Guardian fails and the NYT answers two: page 1 of size 2
      holds the two newest of the five merged articles, newest first, and
      reports a total of five. */
  lemma FallbackScenario(req: Request, w: World, lib: Library, isDate: string -> bool)
    requires Valid(Only(req.input), isDate)
    requires "source" !in req.input && !Filled(req.input, "author")
    requires req.page == Some(1) && req.perPage == Some(2)
    requires |Contribution(SearchNewsApi(Only(req.input), [], w).value)| == 3
    requires SearchGuardian(Only(req.input), SearchNewsApi(Only(req.input), [], w).table, w).value.None?
    requires |Contribution(SearchNyt(Only(req.input),
               SearchGuardian(Only(req.input), SearchNewsApi(Only(req.input), [], w).table, w).table, w).value)| == 2
    ensures var r := Index(req, [], w, lib, isDate);
            var merged := MergedAnswers(Only(req.input), [], w);
            var items := r.response.page.items;
            && r.response.LiveResults?
            && r.response.page.total == 5
            && |items| == 2
            && SortedDesc(items)
            && multiset(items) <= multiset(merged)
            && forall x :: x in multiset(merged) - multiset(items) ==> x.publishedAt <= items[1].publishedAt
  {
    var merged := MergedAnswers(Only(req.input), [], w);
    assert |merged| == 5;
    FallbackSearchesAll(req, [], w, lib, isDate);
    FirstPageNewest(merged, 2);
  }

  /** The author filter is case-insensitive on both sides: an article is kept
      exactly when its author contains the input, ignoring ASCII case, and
      the case in which the input is written does not matter. */
  lemma AuthorFilterIgnoresCase(c: seq<Article>, author: string, a: Article)
    ensures a in AuthorFilter(c, author) <==> a in c && ContainsIgnoringCase(a.author, author)
    ensures AuthorFilter(c, author) == AuthorFilter(c, Lower(author))
  {
    LowerIdempotent(author);
    FilterCount(c, (x: Article) => AuthorMatches(x, Lower(author)), a);
    FilterAgree(c, (x: Article) => AuthorMatches(x, Lower(author)), (x: Article) => AuthorMatches(x, Lower(Lower(author))));
  }

  function ByAuthor(author: string): Article {
    Article(None, author, None, NewsApiName, "general", "[]", author, 0)
  }

  /** Merged results by "Jane Doe", "JANE SMITH" and "Bob" filtered by author
      "jane" keep the first two. */
  lemma AuthorFilterExample()
    ensures AuthorFilter([ByAuthor("Jane Doe"), ByAuthor("JANE SMITH"), ByAuthor("Bob")], "jane")
            == [ByAuthor("Jane Doe"), ByAuthor("JANE SMITH")]
  {
    assert Lower("jane") == "jane";
    assert Lower("Jane Doe") == "jane doe";
    assert Lower("JANE SMITH") == "jane smith";
    assert Lower("Bob") == "bob";
    assert IsPrefix("jane", "jane doe");
    assert IsPrefix("jane", "jane smith");
    assert !Contains("bob", "jane");
  }
}
